/**
 The code of mm/pmm.c on one node, as it runs: linked free lists, a bitmap of bytes and a counter, all
 updated in place.  Each method is proved equal to the corresponding function of module Buddy.
 */
module BuddyImpl {
  import opened Pow2
  import opened BuddySpec
  import opened Buddy
  import opened BuddyNodes
  import opened BuddyCarve
  import opened BuddyLinks
  import opened PageBitmap

  predicate InSpan(p: nat, n: nat, x: nat) { p <= x < p + n }

  function Span(p: nat, n: nat): set<nat>
  {
    set x: nat | x < p + n && InSpan(p, n, x)
  }

  lemma SpanSnoc(p: nat, n: nat)
    ensures Span(p, n + 1) == Span(p, n) + {p + n}
  {
  }

  lemma SpanPages(p: nat, o: nat)
    ensures Span(p, Pow(o)) == PagesOf(p, o)
  {
    forall x: nat ensures x in Span(p, Pow(o)) <==> x in PagesOf(p, o) {
      assert InSpan(p, Pow(o), x) <==> InBlock(p, o, x);
    }
  }

  /** The marking loop of the allocation path. */
  method MarkUsed(bitmap: Bitmap, p: nat, o: nat)
    modifies bitmap.bytes
    ensures bitmap.Clear() == old(bitmap.Clear()) - PagesOf(p, o)
  {
    var k := 0;
    assert Span(p, 0) == {};
    while k < Pow(o)
      invariant k <= Pow(o)
      invariant bitmap.Clear() == old(bitmap.Clear()) - Span(p, k)
    {
      bitmap.Set(p + k);
      SpanSnoc(p, k);
      k := k + 1;
    }
    SpanPages(p, o);
  }

  /** The clearing loop of the free path. */
  method MarkFree(bitmap: Bitmap, p: nat, o: nat)
    modifies bitmap.bytes
    ensures bitmap.Clear() == old(bitmap.Clear()) + Covered(PagesOf(p, o), bitmap.Covered())
  {
    var k := 0;
    assert Covered(Span(p, 0), bitmap.Covered()) == {};
    while k < Pow(o)
      invariant k <= Pow(o)
      invariant bitmap.Clear() == old(bitmap.Clear()) + Covered(Span(p, k), bitmap.Covered())
    {
      bitmap.Unset(p + k);
      SpanSnoc(p, k);
      k := k + 1;
    }
    SpanPages(p, o);
  }

  /** The test loop of the coalescing path. */
  method TestFree(bitmap: Bitmap, q: nat, o: nat) returns (free: bool)
    ensures free <==> AllClear(bitmap.Clear(), q, o)
  {
    free := true;
    var k := 0;
    while k < Pow(o)
      invariant k <= Pow(o)
      invariant free && forall x | q <= x < q + k :: x in bitmap.Clear()
    {
      var used := bitmap.Test(q + k);
      if used { return false; }
      k := k + 1;
    }
  }

  /** The order-reduction loop of carving. */
  method LargestFit(pa: nat, end: nat) returns (o: nat)
    requires pa < end
    ensures o == Fit(pa, end, MAX_ORDER)
  {
    hide And, Aligned, Pow;
    o := MAX_ORDER;
    MaskAligned(pa, o);
    while o > 0 && (And(pa, Pow(o) - 1) != 0 || pa + Pow(o) > end)
      invariant 0 <= o <= MAX_ORDER && Fit(pa, end, o) == Fit(pa, end, MAX_ORDER)
      invariant And(pa, Pow(o) - 1) == 0 <==> Aligned(pa, o)
    {
      o := o - 1;
      MaskAligned(pa, o);
    }
  }

  /** The carving loop of `pmm_add_region` on empty lists. */
  method CarveInto(area: FreeArea, start: nat, end: nat) returns (pages: nat, ghost t: Tiling)
    requires 0 < start < end && area.Valid() && area.lists == EMPTY_LISTS
    modifies area
    ensures area.Valid() && area.lists == Carve(EMPTY_LISTS, start, end) && pages == end - start
    ensures Carved(t, area.lists, start, end) && forall p | p in t :: t[p].kind == Free
  {
    hide Carved, Aligned, Fit, Chains;
    var pa := start;
    pages, t := 0, map[];
    assert Carved(map[], EMPTY_LISTS, start, start) by { EmptyLists(start); }
    while pa < end
      invariant start <= pa <= end && area.Valid() && |area.lists| == MAX_ORDER + 1
      invariant Carved(t, area.lists, start, pa)
      invariant forall p | p in t :: t[p].kind == Free
      invariant Carve(area.lists, pa, end) == Carve(EMPTY_LISTS, start, end)
      invariant pages == pa - start
    {
      var o := LargestFit(pa, end);
      CarveStep(t, area.lists, start, pa, o);
      Uncarved(t, area.lists, start, pa);
      area.Push(o, pa);
      t := t[pa := Block(o, Free)];
      pages := pages + Pow(o);
      pa := pa + Pow(o);
    }
  }

  lemma EmptyLists(start: nat)
    ensures Carved(map[], EMPTY_LISTS, start, start)
  {
  }

  lemma Uncarved(t: Tiling, free: FreeLists, base: nat, pa: nat)
    requires Carved(t, free, base, pa)
    ensures |free| == MAX_ORDER + 1 && forall k | 0 <= k <= MAX_ORDER :: pa !in free[k]
  {
    Unowned(t, free, base, pa);
  }

  /** The search loop of the allocation path: the first order with a block, or one past the last order. */
  method FindAvail(area: FreeArea, o: nat) returns (avail: nat)
    requires area.Valid() && o <= MAX_ORDER
    ensures o <= avail <= MAX_ORDER + 1
    ensures FirstAvail(area.lists, o) == if avail > MAX_ORDER then None else Some(avail)
  {
    avail := o;
    while avail <= MAX_ORDER && area.head[avail] == 0
      invariant o <= avail <= MAX_ORDER + 1 && area.Valid()
      invariant FirstAvail(area.lists, avail) == FirstAvail(area.lists, o)
    {
      HeadListed(area.head[avail], area.next, area.prev, area.lists[avail]);
      avail := avail + 1;
    }
    if avail <= MAX_ORDER {
      HeadListed(area.head[avail], area.next, area.prev, area.lists[avail]);
    }
  }

  /** The split loop of the allocation path. */
  method SplitTo(area: FreeArea, p: nat, avail: nat, o: nat, ghost base: nat, ghost limit: nat,
                 ghost t: Tiling, ghost clear: set<nat>) returns (ghost t': Tiling)
    requires area.Valid() && o <= avail <= MAX_ORDER && |area.lists| == MAX_ORDER + 1
    requires NodeInv(base, limit, area.lists, t, clear) && p in t && t[p] == Block(avail, Held) && OnlyHeld(t, p)
    modifies area
    ensures area.Valid() && area.lists == SplitDown(old(area.lists), p, avail, o)
    ensures NodeInv(base, limit, area.lists, t', clear) && p in t' && t'[p] == Block(o, Held) && OnlyHeld(t', p)
    ensures SameLive(t, t')
  {
    hide Pow, Aligned, NodeInv, Chains;
    var a := avail;
    t' := t;
    while a > o
      invariant o <= a <= avail && area.Valid() && |area.lists| == MAX_ORDER + 1
      invariant NodeInv(base, limit, area.lists, t', clear) && p in t' && t'[p] == Block(a, Held) && OnlyHeld(t', p)
      invariant SplitDown(area.lists, p, a, o) == SplitDown(old(area.lists), p, avail, o)
      invariant SameLive(t, t')
    {
      a := a - 1;
      var buddy := p + Pow(a);
      SplitKeeps(base, limit, area.lists, t', clear, p, a);
      SplitMarks(base, limit, area.lists, t', clear, p, a);
      NotYetListed(base, limit, area.lists, t', clear, p, a);
      area.Push(a, buddy);
      t' := SplitTiling(t', p, a);
    }
  }

  /** The coalescing loop of the free path.  Every unlink is of a block on the list it is unlinked from. */
  method CoalesceFrom(area: FreeArea, bitmap: Bitmap, p: nat, o: nat, base: nat, limit: nat, ghost t: Tiling)
    returns (q: nat, m: nat, ghost t': Tiling)
    requires area.Valid() && NodeInv(base, limit, area.lists, t, bitmap.Clear()) && |area.lists| == MAX_ORDER + 1
    requires EndMarked(bitmap.Clear(), base, limit)
    requires base <= p && o <= MAX_ORDER && p in t && t[p] == Block(o, Held) && OnlyHeld(t, p)
    modifies area
    ensures area.Valid() && Coalesce(old(area.lists), bitmap.Clear(), base, limit, p, o) == Merged(area.lists, q, m)
    ensures NodeInv(base, limit, area.lists, t', bitmap.Clear()) && SameLive(t, t')
    ensures q in t' && t'[q] == Block(m, Held) && OnlyHeld(t', q) && base <= q && m <= MAX_ORDER == |area.lists| - 1
    ensures m < MAX_ORDER ==> !FreeClear(t', bitmap.Clear(), BuddyOf(q, m, base), m)
  {
    hide Pow, Coalesce, BuddyOf, NodeInv, EndMarked, Chains, FreeClear, AllClear, MergeTiling, SameLive, OnlyHeld;
    q, m, t' := p, o, t;
    assert SameLive(t, t') by { Reflexive(t); }
    ghost var clear := bitmap.Clear();
    while m < MAX_ORDER
      invariant m <= MAX_ORDER && base <= q && area.Valid() && |area.lists| == MAX_ORDER + 1 && bitmap.Clear() == clear
      invariant NodeInv(base, limit, area.lists, t', clear) && SameLive(t, t')
      invariant q in t' && t'[q] == Block(m, Held) && OnlyHeld(t', q)
      invariant Coalesce(area.lists, clear, base, limit, q, m) == Coalesce(old(area.lists), clear, base, limit, p, o)
    {
      CoalesceUnfold(area.lists, clear, base, limit, q, m);
      var buddy := BuddyOf(q, m, base);
      if buddy >= limit {
        NotFreeClear(base, limit, area.lists, t', clear, buddy, m);
        break;
      }
      var free := TestFree(bitmap, buddy, m);
      if !free {
        NotFreeClear(base, limit, area.lists, t', clear, buddy, m);
        break;
      }
      OneHeld(t', q);
      ClearBuddyIsListed(base, limit, area.lists, t', clear, q, m);
      MergeStep(base, limit, area.lists, t', clear, q, m);
      Transitive(t, t', MergeTiling(t', q, buddy, m));
      area.Remove(m, buddy);
      t' := MergeTiling(t', q, buddy, m);
      q := if q < buddy then q else buddy;
      m := m + 1;
    }
    CoalesceUnfold(area.lists, clear, base, limit, q, m);
  }

  class MemoryNode {
    const area: FreeArea
    const bitmap: Bitmap
    const base: nat
    const limit: nat
    var freePages: int
    ghost var tiling: Tiling

    ghost predicate Valid()
      reads this, area, bitmap.bytes
    {
      && 0 < base
      && area.Valid()
      && NodeInv(base, limit, area.lists, tiling, bitmap.Clear()) && NoHeld(tiling)
      && EndMarked(bitmap.Clear(), base, limit)
    }

    /** A fresh node for a region, carved block by block. */
    constructor (start: nat, end: nat, bitmap: Bitmap)
      requires 0 < start < end
      ensures this.bitmap == bitmap && base == start && limit == end && fresh(area)
      ensures area.Valid() && area.lists == Carve(EMPTY_LISTS, start, end) && freePages == end - start
      ensures RegionFits(start, end) && Span(start, end - start) !! bitmap.Clear()
              && EndMarked(bitmap.Clear(), start, end)
              ==> Valid()
    {
      var a := new FreeArea();
      var pages, t := CarveInto(a, start, end);
      area, base, limit, freePages, tiling := a, start, end, pages, t;
      this.bitmap := bitmap;
      new;
      if RegionFits(start, end) && Span(start, end - start) !! bitmap.Clear() {
        FreshNode(start, end, area.lists, tiling, bitmap.Clear());
      }
    }

    /** The per-node part of `pmm_alloc_pages`. */
    method Alloc(o: nat) returns (p: nat)
      requires Valid() && o <= MAX_ORDER
      modifies this, area, bitmap.bytes
      ensures Valid()
      ensures FirstAvail(old(area.lists), o).None? ==>
                p == 0 && area.lists == old(area.lists) && bitmap.Clear() == old(bitmap.Clear())
                && freePages == old(freePages) && tiling == old(tiling)
      ensures FirstAvail(old(area.lists), o).Some? ==>
                var avail := FirstAvail(old(area.lists), o).value;
                && p == old(area.lists)[avail][0] && p != 0
                && area.lists == AllocLists(old(area.lists), avail, o)
                && bitmap.Clear() == old(bitmap.Clear()) - PagesOf(p, o)
                && freePages == old(freePages) - Pow(o)
                && LiveAdded(old(tiling), tiling, p, o)
    {
      hide Pow, Aligned, NodeInv, EndMarked, Chains, PagesOf, SplitDown;
      InvShape(base, limit, area.lists, tiling, bitmap.Clear());
      var avail := FindAvail(area, o);
      if avail > MAX_ORDER { return 0; }
      ghost var lists0, t0, clear := area.lists, tiling, bitmap.Clear();
      p := area.Pop(avail);
      assert p in lists0[avail];
      HeadRemoved(lists0[avail]);
      TakeKeeps(base, limit, lists0, t0, clear, avail, p);
      ghost var t := SplitTo(area, p, avail, o, base, limit, t0[p := Block(avail, Held)], clear);
      CommitKeeps(base, limit, area.lists, t, clear, p, o);
      MarkUsed(bitmap, p, o);
      EndShrinks(base, limit, clear, bitmap.Clear());
      freePages := freePages - Pow(o);
      tiling := t[p := Block(o, Live)];
      TookLive(t0, t, tiling, p, avail, o);
    }

    /** The per-node part of `pmm_free_pages`, for a block that is live at this order. */
    method Free(p: nat, o: nat)
      requires Valid() && o <= MAX_ORDER && LiveAt(tiling, p, o) && base <= p
      modifies this, area, bitmap.bytes
      ensures Valid() && |old(area.lists)| == MAX_ORDER + 1
      ensures bitmap.Clear() == old(bitmap.Clear()) + Covered(PagesOf(p, o), bitmap.Covered())
      ensures var r := Coalesce(old(area.lists), bitmap.Clear(), base, limit, p, o);
              r.Merged? && area.lists == Push(r.free, r.ord, r.pfn) && freePages == old(freePages) + Pow(r.ord)
      ensures forall q: nat, k: nat | q != p :: LiveAt(old(tiling), q, k) <==> LiveAt(tiling, q, k)
      ensures forall k: nat :: !LiveAt(tiling, p, k)
    {
      hide Pow, Aligned, Xor, NodeInv, EndMarked, Chains, PagesOf, Coalesce;
      ghost var t0, clear0 := tiling, bitmap.Clear();
      InvShape(base, limit, area.lists, t0, clear0);
      ReleaseKeeps(base, limit, area.lists, t0, clear0, p, o, bitmap.Covered());
      ghost var t1 := t0[p := Block(o, Held)];
      LiveEnds(base, limit, area.lists, t0, clear0, p, o);
      MarkFree(bitmap, p, o);
      EndStays(base, limit, clear0, bitmap.Clear(), p, o, bitmap.Covered());
      var q, m, t := CoalesceFrom(area, bitmap, p, o, base, limit, t1);
      PutKeeps(base, limit, area.lists, t, bitmap.Clear(), q, m);
      HeldUnlisted(base, limit, area.lists, t, bitmap.Clear(), q);
      area.Push(m, q);
      freePages := freePages + Pow(m);
      tiling := t[q := Block(m, Kind.Free)];
      FreedLive(t0, t1, t, tiling, p, q, m);
    }
  }

  lemma LiveEnds(base: nat, limit: nat, free: FreeLists, t: Tiling, clear: set<nat>, p: nat, o: nat)
    requires NodeInv(base, limit, free, t, clear) && LiveAt(t, p, o)
    ensures p + Pow(o) <= limit
  {
    hide Pow, Aligned;
  }

  /** Setting bits keeps set what was set. */
  lemma EndShrinks(base: nat, limit: nat, clear: set<nat>, clear': set<nat>)
    requires EndMarked(clear, base, limit) && clear' <= clear
    ensures EndMarked(clear', base, limit)
  {
    hide Pow, Aligned;
    forall q: nat, o: nat | Overruns(q, o, base, limit)
      ensures !PastClear(clear', limit, q, o)
    {
      assert !PastClear(clear, limit, q, o);
      var x :| limit <= x < q + Pow(o) && x !in clear;
      assert x !in clear';
    }
  }

  lemma HeldUnlisted(base: nat, limit: nat, free: FreeLists, t: Tiling, clear: set<nat>, q: nat)
    requires NodeInv(base, limit, free, t, clear) && q in t && t[q].kind == Held
    ensures forall k | 0 <= k <= MAX_ORDER :: q !in free[k]
  {
  }

  lemma FreedLive(t0: Tiling, t1: Tiling, t: Tiling, t': Tiling, p: nat, q: nat, m: nat)
    requires p in t0 && t1 == t0[p := Block(t0[p].ord, Held)] && SameLive(t1, t)
    requires q in t && t[q] == Block(m, Held) && OnlyHeld(t, q) && t' == t[q := Block(m, Kind.Free)]
    ensures NoHeld(t') && forall k: nat :: !LiveAt(t', p, k)
    ensures forall r: nat, k: nat | r != p :: LiveAt(t0, r, k) <==> LiveAt(t', r, k)
  {
    assert forall r: nat, k: nat :: LiveAt(t, r, k) <==> LiveAt(t', r, k);
    assert forall r: nat, k: nat | r != p :: LiveAt(t0, r, k) <==> LiveAt(t1, r, k);
    assert forall k: nat :: !LiveAt(t1, p, k);
  }

  lemma TookLive(t0: Tiling, t: Tiling, t': Tiling, p: nat, avail: nat, o: nat)
    requires p in t0 && t0[p].kind == Free && SameLive(t0[p := Block(avail, Held)], t)
    requires p in t && t[p] == Block(o, Held) && OnlyHeld(t, p) && t' == t[p := Block(o, Live)]
    ensures LiveAdded(t0, t', p, o) && NoHeld(t')
  {
    var t1 := t0[p := Block(avail, Held)];
    assert forall q: nat, k: nat | q != p :: LiveAt(t0, q, k) <==> LiveAt(t1, q, k);
    assert forall q: nat, k: nat | q != p :: LiveAt(t, q, k) <==> LiveAt(t', q, k);
  }

  /** The upper half of a held block is on no list yet. */
  lemma NotYetListed(base: nat, limit: nat, free: FreeLists, t: Tiling, clear: set<nat>, p: nat, h: nat)
    requires NodeInv(base, limit, free, t, clear) && p in t && t[p] == Block(h + 1, Held)
    ensures p + Pow(h) != 0 && forall k | 0 <= k <= MAX_ORDER :: p + Pow(h) !in free[k]
  {
    SplitDisjoint(t, p, h);
  }

  lemma FreshNode(start: nat, end: nat, lists: FreeLists, t: Tiling, clear: set<nat>)
    requires start < end && RegionFits(start, end) && Span(start, end - start) !! clear
    requires Carved(t, lists, start, end) && forall p | p in t :: t[p].kind == Free
    ensures NodeInv(start, end, lists, t, clear) && NoHeld(t)
  {
    hide Pow, Aligned;
    forall p | p in t ensures Aligned(p - start, t[p].ord) {
      FitsAligned(start, end, p, t[p].ord);
    }
    forall x: nat | start <= x < end ensures x !in clear {
      assert InSpan(start, end - start, x) && x in Span(start, end - start);
    }
    forall p: nat, o: nat ensures !FreeClear(t, clear, p, o) {
      assert p in t ==> p !in clear;
    }
  }
}
