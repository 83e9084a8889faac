/** Carving a region into blocks, and the free-page arithmetic of every operation. */
module BuddyCarve {
  import opened Pow2
  import opened BuddySpec
  import opened Buddy

  // ---------------------------------------------------------------- carving

  function CarveTiling(t: Tiling, pa: nat, end: nat): Tiling
    decreases end - pa
  {
    if pa >= end then t
    else var o := Fit(pa, end, MAX_ORDER); CarveTiling(t[pa := Block(o, Free)], pa + Pow(o), end)
  }

  /** What carving has built when it reaches `pa`: blocks at absolutely aligned addresses from `base` on. */
  ghost predicate Carved(t: Tiling, free: FreeLists, base: nat, pa: nat)
  {
    && Placed(t, 0, pa) && Disjoint(t) && Complete(t, base, pa) && Listed(free, t)
    && forall p | p in t :: base <= p
  }

  lemma CarveStep(t: Tiling, free: FreeLists, base: nat, pa: nat, o: nat)
    requires Carved(t, free, base, pa) && base <= pa && o <= MAX_ORDER && Aligned(pa, o)
    ensures Carved(t[pa := Block(o, Free)], Push(free, o, pa), base, pa + Pow(o))
  {
    assert pa !in t by {
      PastAll(t, pa);
    }
    hide Pow, Placed, Disjoint, Complete, Listed;
    var t' := t[pa := Block(o, Free)];
    PushListed(free, t, o, pa, t');
    StepPlaced(t, pa, o);
    StepComplete(t, base, pa, o);
  }

  lemma PastAll(t: Tiling, pa: nat)
    requires Placed(t, 0, pa)
    ensures pa !in t
  {
    hide Aligned;
  }

  lemma StepPlaced(t: Tiling, pa: nat, o: nat)
    requires Placed(t, 0, pa) && Disjoint(t) && o <= MAX_ORDER && Aligned(pa, o)
    ensures Placed(t[pa := Block(o, Free)], 0, pa + Pow(o)) && Disjoint(t[pa := Block(o, Free)])
  {
    hide Pow, Aligned;
    var t' := t[pa := Block(o, Free)];
    forall a, b | a in t' && b in t' && a < b
      ensures a + Pow(t'[a].ord) <= b
    {
      if b == pa {
        assert a in t;
      } else {
        assert b in t;
        assert a == pa || a in t;
      }
    }
  }

  lemma StepComplete(t: Tiling, base: nat, pa: nat, o: nat)
    requires Complete(t, base, pa) && pa !in t
    ensures Complete(t[pa := Block(o, Free)], base, pa + Pow(o))
  {
    hide Pow;
    var t' := t[pa := Block(o, Free)];
    forall x: nat | base <= x < pa + Pow(o)
      ensures Owned(t', x)
    {
      if x < pa {
        assert Owned(t, x);
        var p: nat :| Covers(t, p, x);
        assert Covers(t', p, x);
      } else {
        assert Covers(t', pa, x);
      }
    }
  }

  lemma {:induction false} CarveShape(t: Tiling, free: FreeLists, base: nat, pa: nat, end: nat)
    requires Carved(t, free, base, pa) && base <= pa <= end && |free| == MAX_ORDER + 1
    ensures Carved(CarveTiling(t, pa, end), Carve(free, pa, end), base, end)
    ensures forall p | p in t :: p in CarveTiling(t, pa, end) && CarveTiling(t, pa, end)[p] == t[p]
    ensures forall p | p in CarveTiling(t, pa, end) && p !in t :: CarveTiling(t, pa, end)[p].kind == Free
    decreases end - pa
  {
    hide Carved, Pow, Aligned;
    if pa < end {
      var o := Fit(pa, end, MAX_ORDER);
      Unowned(t, free, base, pa);
      var t1, free1 := t[pa := Block(o, Free)], Push(free, o, pa);
      assert CarveTiling(t, pa, end) == CarveTiling(t1, pa + Pow(o), end);
      assert Carve(free, pa, end) == Carve(free1, pa + Pow(o), end);
      CarveStep(t, free, base, pa, o);
      CarveShape(t1, free1, base, pa + Pow(o), end);
      assert forall p | p in t :: p in t1 && t1[p] == t[p];
    }
  }

  lemma Unowned(t: Tiling, free: FreeLists, base: nat, pa: nat)
    requires Carved(t, free, base, pa)
    ensures pa !in t && |free| == MAX_ORDER + 1
  {
  }

  /** In a region that fits, a block aligned by absolute address is aligned relative to the base too. */
  lemma FitsAligned(base: nat, end: nat, p: nat, o: nat)
    requires RegionFits(base, end) && base <= p && o <= MAX_ORDER && Aligned(p, o) && p + Pow(o) <= end
    ensures Aligned(p - base, o)
  {
    hide Aligned, Pow;
    var k := Order(base, MAX_ORDER);
    if p == base {
      ZeroAligned(o);
    } else {
      if o > k {
        NextAligned(base, k, p);
        AlignedDown(p, o, k + 1);
        PowMonotone(k + 1, o);
      }
      assert o <= k || Aligned(base, MAX_ORDER);
      AlignedDown(base, k, if o <= k then o else k);
      AlignedSum(p, base, o);
    }
  }

  /** Past a base aligned exactly to order `k`, the first address aligned to order `k + 1` is `2^k` on. */
  lemma NextAligned(base: nat, k: nat, p: nat)
    requires Aligned(base, k) && !Aligned(base, k + 1)
    ensures Aligned(base + Pow(k), k + 1) && Pow(k + 1) == 2 * Pow(k)
    ensures p > base && Aligned(p, k + 1) ==> base + Pow(k) <= p
  {
    OddMultiple(base, k);
    if p > base && Aligned(p, k + 1) {
      AlignedDown(p, k + 1, k);
      AlignedGap(base, p, k);
    }
  }

  lemma {:induction false} OddMultiple(x: nat, k: nat)
    requires Aligned(x, k) && !Aligned(x, k + 1)
    ensures Aligned(x + Pow(k), k + 1)
  {
    if k > 0 {
      OddMultiple(x / 2, k - 1);
      AlignedDouble(x / 2 + Pow(k - 1), k);
    }
  }

  // ---------------------------------------------------------------- pages on the free lists

  function PagesFrom(free: FreeLists, o: nat): nat
    decreases |free| - o
  {
    if o >= |free| then 0 else |free[o]| * Pow(o) + PagesFrom(free, o + 1)
  }

  /** The number of pages on a node's free lists. */
  function ListPages(free: FreeLists): nat { PagesFrom(free, 0) }

  lemma {:induction false} UpdatePages(free: FreeLists, o: nat, s: seq<nat>, k: nat)
    requires o < |free|
    ensures PagesFrom(free[o := s], k) == PagesFrom(free, k) + (if k <= o then (|s| - |free[o]|) * Pow(o) else 0)
    decreases |free| - k
  {
    if k < |free| {
      UpdatePages(free, o, s, k + 1);
    }
  }

  lemma PushPages(free: FreeLists, o: nat, p: nat)
    requires o < |free|
    ensures ListPages(Push(free, o, p)) == ListPages(free) + Pow(o)
  {
    UpdatePages(free, o, [p] + free[o], 0);
  }

  lemma RemovePages(free: FreeLists, o: nat, p: nat)
    requires o < |free| && p in free[o]
    ensures ListPages(Remove(free, o, p)) == ListPages(free) - Pow(o)
  {
    UpdatePages(free, o, RemoveFirst(free[o], p), 0);
  }

  lemma {:induction false} SplitDownPages(free: FreeLists, p: nat, avail: nat, o: nat)
    requires |free| == MAX_ORDER + 1 && o <= avail <= MAX_ORDER
    ensures ListPages(SplitDown(free, p, avail, o)) == ListPages(free) + Pow(avail) - Pow(o)
    decreases avail
  {
    if avail > o {
      PushPages(free, avail - 1, p + Pow(avail - 1));
      SplitDownPages(Push(free, avail - 1, p + Pow(avail - 1)), p, avail - 1, o);
    }
  }

  lemma AllocPagesCount(free: FreeLists, avail: nat, o: nat)
    requires |free| == MAX_ORDER + 1 && o <= avail <= MAX_ORDER && free[avail] != []
    ensures ListPages(AllocLists(free, avail, o)) == ListPages(free) - Pow(o)
  {
    hide Pow, PagesFrom;
    assert Remove(free, avail, free[avail][0]) == free[avail := free[avail][1..]];
    RemovePages(free, avail, free[avail][0]);
    SplitDownPages(free[avail := free[avail][1..]], free[avail][0], avail, o);
  }

  lemma {:induction false} CoalescePages(free: FreeLists, clear: set<nat>, base: nat, limit: nat, p: nat, o: nat)
    requires |free| == MAX_ORDER + 1 && base <= p && o <= MAX_ORDER
    ensures var r := Coalesce(free, clear, base, limit, p, o);
            r.Merged? ==> ListPages(r.free) == ListPages(free) - (Pow(r.ord) - Pow(o))
    decreases MAX_ORDER - o
  {
    var q := BuddyOf(p, o, base);
    if o < MAX_ORDER && q < limit && AllClear(clear, q, o) && q in free[o] {
      RemovePages(free, o, q);
      CoalescePages(Remove(free, o, q), clear, base, limit, if p < q then p else q, o + 1);
    }
  }

  lemma {:induction false} CarvePages(free: FreeLists, pa: nat, end: nat)
    requires |free| == MAX_ORDER + 1 && pa <= end
    ensures ListPages(Carve(free, pa, end)) == ListPages(free) + (end - pa)
    decreases end - pa
  {
    hide Aligned, PagesFrom, Fit;
    if pa < end {
      var o := Fit(pa, end, MAX_ORDER);
      PushPages(free, o, pa);
      CarvePages(Push(free, o, pa), pa + Pow(o), end);
    }
  }
}
