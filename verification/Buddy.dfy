/**
 The public operations of mm/pmm.c on values: `pmm_add_region`, `pmm_alloc_pages` and
 `pmm_free_pages` over up to eight nodes that share one bitmap, and runs of them.
 */
module Buddy {
  import opened Pow2
  import opened BuddySpec

  datatype Option<T> = None | Some(value: T)

  /** One memory node: its range of pages, its free lists and its free-page counter. */
  datatype Node = Node(base: nat, limit: nat, free: FreeLists, freePages: int)

  /** A free as the counter saw it: the order the caller freed and the order after merging. */
  datatype FreeEvent = FreeEvent(node: nat, freed: nat, merged: nat)

  /** `clear`, `covered`: the bitmap.  `freeRam` is the global free-page statistic. `live` and `frees` record
      what callers hold and what was freed. */
  datatype State = State(nodes: seq<Node>, clear: set<nat>, covered: nat, freeRam: int,
                         live: map<nat, nat>, frees: seq<FreeEvent>)

  datatype Outcome = Ok(s: State, pfn: nat) | Corrupt

  const EMPTY_LISTS: FreeLists := [[], [], [], [], [], [], [], [], [], [], []]

  /** The state `pmm_init` leaves: every bit of a bitmap for `covered` pages set, no node. */
  function Init(covered: nat): State
  {
    State([], {}, covered, 0, map[], [])
  }

  // ---------------------------------------------------------------- allocation

  /** The smallest order at least `o` with a free block. */
  function FirstAvail(free: FreeLists, o: nat): (r: Option<nat>)
    requires |free| == MAX_ORDER + 1
    ensures r.Some? ==> o <= r.value <= MAX_ORDER && free[r.value] != []
    ensures forall k | o <= k <= MAX_ORDER && free[k] != [] :: r.Some? && r.value <= k
    decreases MAX_ORDER + 1 - o
  {
    if o > MAX_ORDER then None else if free[o] != [] then Some(o) else FirstAvail(free, o + 1)
  }

  /** The split loop: push the upper halves of a popped block down to the requested order. */
  function SplitDown(free: FreeLists, p: nat, avail: nat, o: nat): (r: FreeLists)
    requires |free| == MAX_ORDER + 1 && o <= avail <= MAX_ORDER
    ensures |r| == MAX_ORDER + 1
    decreases avail
  {
    if avail == o then free else SplitDown(Push(free, avail - 1, p + Pow(avail - 1)), p, avail - 1, o)
  }

  function AllocLists(free: FreeLists, avail: nat, o: nat): (r: FreeLists)
    requires |free| == MAX_ORDER + 1 && o <= avail <= MAX_ORDER && free[avail] != []
    ensures |r| == MAX_ORDER + 1
  {
    SplitDown(free[avail := free[avail][1..]], free[avail][0], avail, o)
  }

  predicate WellFormed(s: State)
  {
    forall i | 0 <= i < |s.nodes| :: |s.nodes[i].free| == MAX_ORDER + 1 && s.nodes[i].base < s.nodes[i].limit
  }

  function AllocFrom(s: State, i: nat, o: nat): Outcome
    requires WellFormed(s) && o <= MAX_ORDER
    decreases |s.nodes| - i
  {
    if i >= |s.nodes| then Ok(s, 0)
    else
      var nd := s.nodes[i];
      match FirstAvail(nd.free, o)
      case None => AllocFrom(s, i + 1, o)
      case Some(avail) =>
        var p := nd.free[avail][0];
        var nd' := nd.(free := AllocLists(nd.free, avail, o), freePages := nd.freePages - Pow(o));
        Ok(s.(nodes := s.nodes[i := nd'], clear := s.clear - PagesOf(p, o), freeRam := s.freeRam - Pow(o),
              live := s.live[p := o]), p)
  }

  function AllocPages(s: State, ord: int): Outcome
    requires WellFormed(s)
  {
    if ord < 0 || ord > MAX_ORDER then Ok(s, 0) else AllocFrom(s, 0, ord)
  }

  // ---------------------------------------------------------------- free

  datatype Merge = Merged(free: FreeLists, pfn: nat, ord: nat) | Unlisted(pfn: nat, ord: nat)

  /** The coalescing loop.  `Unlisted` is the state in which it unlinks a block that is not on that list. */
  function Coalesce(free: FreeLists, clear: set<nat>, base: nat, limit: nat, p: nat, o: nat): (r: Merge)
    requires |free| == MAX_ORDER + 1 && base <= p && o <= MAX_ORDER
    ensures r.Merged? ==> |r.free| == MAX_ORDER + 1 && o <= r.ord <= MAX_ORDER
    decreases MAX_ORDER - o
  {
    if o == MAX_ORDER then Merged(free, p, o)
    else
      var q := BuddyOf(p, o, base);
      if q >= limit || !AllClear(clear, q, o) then Merged(free, p, o)
      else if q !in free[o] then Unlisted(q, o)
      else Coalesce(Remove(free, o, q), clear, base, limit, if p < q then p else q, o + 1)
  }

  /** The first node whose range holds the page. */
  function NodeOf(nodes: seq<Node>, p: nat): (r: Option<nat>)
    ensures r.Some? ==> r.value < |nodes| && nodes[r.value].base <= p < nodes[r.value].limit
    ensures r.None? ==> forall i | 0 <= i < |nodes| :: !(nodes[i].base <= p < nodes[i].limit)
  {
    NodeFrom(nodes, p, 0)
  }

  function NodeFrom(nodes: seq<Node>, p: nat, i: nat): (r: Option<nat>)
    ensures r.Some? ==> r.value < |nodes| && nodes[r.value].base <= p < nodes[r.value].limit
    ensures r.None? ==> forall j | i <= j < |nodes| :: !(nodes[j].base <= p < nodes[j].limit)
    decreases |nodes| - i
  {
    if i >= |nodes| then None
    else if nodes[i].base <= p < nodes[i].limit then Some(i)
    else NodeFrom(nodes, p, i + 1)
  }

  function FreePages(s: State, p: nat, ord: int): Outcome
    requires WellFormed(s)
  {
    if p == 0 || ord < 0 || ord > MAX_ORDER || NodeOf(s.nodes, p).None? then Ok(s, 0)
    else
      var i := NodeOf(s.nodes, p).value;
      var nd := s.nodes[i];
      var clear := s.clear + Covered(PagesOf(p, ord), s.covered);
      match Coalesce(nd.free, clear, nd.base, nd.limit, p, ord)
      case Unlisted(_, _) => Corrupt
      case Merged(free, q, m) =>
        var nd' := nd.(free := Push(free, m, q), freePages := nd.freePages + Pow(m));
        Ok(s.(nodes := s.nodes[i := nd'], clear := clear, freeRam := s.freeRam + Pow(m),
              live := s.live - {p}, frees := s.frees + [FreeEvent(i, ord, m)]), 0)
  }

  // ---------------------------------------------------------------- adding a region

  /** The largest order at most `o` whose blocks are aligned at `pa` and fit before `end`. */
  function Fit(pa: nat, end: nat, o: nat): (r: nat)
    requires pa < end
    ensures r <= o && Aligned(pa, r) && pa + Pow(r) <= end
  {
    if o > 0 && (!Aligned(pa, o) || pa + Pow(o) > end) then Fit(pa, end, o - 1) else o
  }

  function Carve(free: FreeLists, pa: nat, end: nat): (r: FreeLists)
    requires |free| == MAX_ORDER + 1
    ensures |r| == MAX_ORDER + 1
    decreases end - pa
  {
    if pa >= end then free
    else var o := Fit(pa, end, MAX_ORDER); Carve(Push(free, o, pa), pa + Pow(o), end)
  }

  /** The first and one-past-last page a region contributes, after alignment and the 16 MB floor. */
  function RegionStart(base: nat): nat
  {
    var start := (base + PAGE_SIZE - 1) / PAGE_SIZE;
    if start < FIRST_PAGE then FIRST_PAGE else start
  }

  function RegionEnd(base: nat, length: nat): nat { (base + length) / PAGE_SIZE }

  function AddRegion(s: State, base: nat, length: nat): Outcome
    requires WellFormed(s)
  {
    var start, end := RegionStart(base), RegionEnd(base, length);
    if end <= start then Ok(s, 0)
    else
      match NodeOf(s.nodes, start)
      case None =>
        if |s.nodes| >= MAX_NODES then Ok(s, 0)
        else
          var nd := Node(start, end, Carve(EMPTY_LISTS, start, end), end - start);
          Ok(s.(nodes := s.nodes + [nd], freeRam := nd.freePages), 0)
      case Some(i) =>
        var nd := s.nodes[i];
        var nd' := nd.(limit := if end > nd.limit then end else nd.limit,
                       free := Carve(nd.free, start, end), freePages := nd.freePages + (end - start));
        Ok(s.(nodes := s.nodes[i := nd'], freeRam := nd'.freePages), 0)
  }

  // ---------------------------------------------------------------- runs

  datatype Op = Add(base: nat, length: nat) | Alloc(ord: int) | Release(pfn: nat, ord: int)

  function Step(s: State, op: Op): Outcome
    requires WellFormed(s)
  {
    match op
    case Add(base, length) => AddRegion(s, base, length)
    case Alloc(ord) => AllocPages(s, ord)
    case Release(p, ord) => FreePages(s, p, ord)
  }

  /** The free matches an allocation the caller holds, or is one the allocator ignores. */
  predicate Matching(s: State, p: nat, ord: int)
  {
    || (p in s.live && s.live[p] == ord)
    || p == 0 || ord < 0 || ord > MAX_ORDER || NodeOf(s.nodes, p).None?
  }

  /** How far the alignment of `x` reaches, up to the largest order. */
  function Order(x: nat, o: nat): (r: nat)
    ensures r <= o && Aligned(x, r) && (r < o ==> !Aligned(x, r + 1))
  {
    if o == 0 || Aligned(x, o) then o else Order(x, o - 1)
  }

  /** The condition under which carving by absolute address agrees with buddies relative to the base. */
  predicate RegionFits(start: nat, end: nat)
  {
    Aligned(start, MAX_ORDER) || end < start + 3 * Pow(Order(start, MAX_ORDER))
  }

  predicate Apart(a: nat, b: nat, c: nat, d: nat) { b <= c || d <= a }

  predicate Inside(nd: Node, x: nat) { nd.base <= x < nd.limit }

  predicate InSome(nodes: seq<Node>, x: nat)
  {
    exists i :: 0 <= i < |nodes| && Inside(nodes[i], x)
  }

  /** Some page of the range belongs to no node. */
  ghost predicate Uncovered(nodes: seq<Node>, a: nat, b: nat)
  {
    exists x: nat :: a <= x < b && !InSome(nodes, x)
  }

  /** Wherever a buddy region runs past the end of a node, other nodes do not cover all of it. */
  ghost predicate Exposed(nodes: seq<Node>)
  {
    forall i: nat, q: nat, o: nat | i < |nodes| && Overruns(q, o, nodes[i].base, nodes[i].limit) ::
      Uncovered(nodes, nodes[i].limit, q + Pow(o))
  }

  /** A region the allocator can take in: it fits, meets no node, and leaves buddy regions exposed. */
  ghost predicate LegalAdd(s: State, base: nat, length: nat)
    requires WellFormed(s)
  {
    var start, end := RegionStart(base), RegionEnd(base, length);
    start < end && (|s.nodes| < MAX_NODES || NodeOf(s.nodes, start).Some?) ==>
      && RegionFits(start, end)
      && (forall i | 0 <= i < |s.nodes| :: Apart(s.nodes[i].base, s.nodes[i].limit, start, end))
      && Exposed(s.nodes + [Node(start, end, EMPTY_LISTS, 0)])
  }

  ghost predicate Legal(s: State, op: Op)
    requires WellFormed(s)
  {
    match op
    case Add(base, length) => LegalAdd(s, base, length)
    case Alloc(_) => true
    case Release(p, ord) => Matching(s, p, ord)
  }
}
