/** Each operation on one node keeps the node's invariant. */
module BuddyNodes {
  import opened Pow2
  import opened BuddySpec
  import opened Buddy

  predicate LiveAt(t: Tiling, p: nat, o: nat) { p in t && t[p] == Block(o, Live) }

  ghost predicate SameLive(t: Tiling, t': Tiling)
  {
    forall p: nat, o: nat :: LiveAt(t, p, o) <==> LiveAt(t', p, o)
  }

  /** The live blocks of `t'` are those of `t` and the one of order `o` at `p`, which was not live before. */
  ghost predicate LiveAdded(t: Tiling, t': Tiling, p: nat, o: nat)
  {
    && LiveAt(t', p, o) && p in t && t[p].kind == Free
    && forall q: nat, k: nat | q != p :: LiveAt(t, q, k) <==> LiveAt(t', q, k)
  }

  /** Every block of `t` other than the one at `p` is still there. */
  ghost predicate KeptBut(t: Tiling, t': Tiling, p: nat)
  {
    forall q | q in t && q != p :: q in t' && t'[q] == t[q]
  }

  ghost predicate OnlyHeld(t: Tiling, p: nat)
  {
    forall q | q in t && t[q].kind == Held :: q == p
  }

  ghost predicate NoHeld(t: Tiling)
  {
    forall q | q in t :: t[q].kind != Held
  }

  lemma SplitMarks(base: nat, limit: nat, free: FreeLists, t: Tiling, clear: set<nat>, p: nat, h: nat)
    requires NodeInv(base, limit, free, t, clear) && p in t && t[p] == Block(h + 1, Held) && OnlyHeld(t, p)
    ensures var t' := SplitTiling(t, p, h);
            p in t' && t'[p] == Block(h, Held) && OnlyHeld(t', p) && SameLive(t, t') && KeptBut(t, t', p)
  {
    assert Disjoint(t);
    hide NodeInv, Pow, Disjoint;
    SplitDisjoint(t, p, h);
    SplitKinds(t, p, h);
  }

  lemma SplitKinds(t: Tiling, p: nat, h: nat)
    requires p in t && t[p] == Block(h + 1, Held) && OnlyHeld(t, p) && p + Pow(h) !in t
    ensures var t' := SplitTiling(t, p, h);
            p in t' && t'[p] == Block(h, Held) && OnlyHeld(t', p) && SameLive(t, t') && KeptBut(t, t', p)
  {
    hide Pow;
  }

  lemma {:induction false} SplitDownKeeps(base: nat, limit: nat, free: FreeLists, t: Tiling, clear: set<nat>,
                                          p: nat, avail: nat, o: nat) returns (t': Tiling)
    requires NodeInv(base, limit, free, t, clear) && o <= avail <= MAX_ORDER == |free| - 1
    requires p in t && t[p] == Block(avail, Held) && OnlyHeld(t, p)
    ensures NodeInv(base, limit, SplitDown(free, p, avail, o), t', clear)
    ensures p in t' && t'[p] == Block(o, Held) && OnlyHeld(t', p) && SameLive(t, t') && KeptBut(t, t', p)
    decreases avail
  {
    hide NodeInv, Pow;
    if avail == o {
      t' := t;
    } else {
      var h := avail - 1;
      assert SplitDown(free, p, avail, o) == SplitDown(Push(free, h, p + Pow(h)), p, h, o);
      SplitKeeps(base, limit, free, t, clear, p, h);
      SplitMarks(base, limit, free, t, clear, p, h);
      t' := SplitDownKeeps(base, limit, Push(free, h, p + Pow(h)), SplitTiling(t, p, h), clear, p, h, o);
    }
  }

  lemma HeadRemoved(s: seq<nat>)
    requires s != []
    ensures RemoveFirst(s, s[0]) == s[1..]
  {
  }

  lemma FreeHead(base: nat, limit: nat, free: FreeLists, t: Tiling, clear: set<nat>, avail: nat, o: nat)
    requires NodeInv(base, limit, free, t, clear) && o <= avail <= MAX_ORDER && free[avail] != []
    ensures var p := free[avail][0];
            p in free[avail] && p in t && t[p] == Block(avail, Free) && base <= p && p + Pow(o) <= limit
  {
    hide Pow, Aligned;
    assert free[avail][0] in free[avail];
    PowMonotone(o, avail);
  }

  lemma AllocNodeKeeps(base: nat, limit: nat, free: FreeLists, t: Tiling, clear: set<nat>, avail: nat, o: nat)
    returns (t': Tiling)
    requires NodeInv(base, limit, free, t, clear) && NoHeld(t) && |free| == MAX_ORDER + 1
    requires o <= avail <= MAX_ORDER && free[avail] != []
    ensures NodeInv(base, limit, AllocLists(free, avail, o), t', clear - PagesOf(free[avail][0], o)) && NoHeld(t')
    ensures LiveAdded(t, t', free[avail][0], o) && KeptBut(t, t', free[avail][0])
    ensures base <= free[avail][0] && free[avail][0] + Pow(o) <= limit
  {
    hide Pow, Aligned, NodeInv, SplitDown, PagesOf;
    var p := free[avail][0];
    FreeHead(base, limit, free, t, clear, avail, o);
    HeadRemoved(free[avail]);
    TakeKeeps(base, limit, free, t, clear, avail, p);
    var free1, t1 := Remove(free, avail, p), t[p := Block(avail, Held)];
    var t2 := SplitDownKeeps(base, limit, free1, t1, clear, p, avail, o);
    CommitKeeps(base, limit, SplitDown(free1, p, avail, o), t2, clear, p, o);
    t' := t2[p := Block(o, Live)];
    assert forall q: nat, k: nat | q != p :: LiveAt(t, q, k) <==> LiveAt(t1, q, k);
    assert forall q: nat, k: nat | q != p :: LiveAt(t2, q, k) <==> LiveAt(t', q, k);
  }

  /** A coalescing loop that finds every block it unlinks on its list keeps the invariant. */
  lemma {:induction false} CoalesceKeeps(base: nat, limit: nat, free: FreeLists, t: Tiling, clear: set<nat>, p: nat,
                                         o: nat)
    returns (t': Tiling)
    requires NodeInv(base, limit, free, t, clear)
    requires p in t && t[p] == Block(o, Held) && OnlyHeld(t, p) && Coalesce(free, clear, base, limit, p, o).Merged?
    ensures var r := Coalesce(free, clear, base, limit, p, o);
            && NodeInv(base, limit, r.free, t', clear)
            && r.pfn in t' && t'[r.pfn] == Block(r.ord, Held) && OnlyHeld(t', r.pfn) && SameLive(t, t')
            && (r.ord < MAX_ORDER ==> !FreeClear(t', clear, BuddyOf(r.pfn, r.ord, base), r.ord))
    decreases MAX_ORDER - o
  {
    hide Pow, Coalesce, NodeInv, FreeClear, AllClear, MergeTiling, SameLive, OnlyHeld, BuddyOf, Buddies;
    InvShape(base, limit, free, t, clear);
    CoalesceUnfold(free, clear, base, limit, p, o);
    var q := BuddyOf(p, o, base);
    if o == MAX_ORDER || q >= limit || !AllClear(clear, q, o) {
      t' := t;
      Reflexive(t);
      if o < MAX_ORDER {
        NotFreeClear(base, limit, free, t, clear, q, o);
      }
    } else {
      MergeStep(base, limit, free, t, clear, p, o);
      var m, t1 := if p < q then p else q, MergeTiling(t, p, q, o);
      t' := CoalesceKeeps(base, limit, Remove(free, o, q), t1, clear, m, o + 1);
      Transitive(t, t1, t');
    }
  }

  /** One turn of the coalescing loop. */
  lemma CoalesceUnfold(free: FreeLists, clear: set<nat>, base: nat, limit: nat, p: nat, o: nat)
    requires |free| == MAX_ORDER + 1 && base <= p && o <= MAX_ORDER
    ensures var q := BuddyOf(p, o, base);
            && base <= q
            && (o == MAX_ORDER || q >= limit || !AllClear(clear, q, o) ==>
                  Coalesce(free, clear, base, limit, p, o) == Merged(free, p, o))
            && (o < MAX_ORDER && q < limit && AllClear(clear, q, o) && q !in free[o] ==>
                  Coalesce(free, clear, base, limit, p, o).Unlisted?)
            && (o < MAX_ORDER && q < limit && AllClear(clear, q, o) && q in free[o] ==>
                  Coalesce(free, clear, base, limit, p, o)
                  == Coalesce(Remove(free, o, q), clear, base, limit, if p < q then p else q, o + 1))
  {
    hide Pow, AllClear, Xor;
  }

  lemma MergeStep(base: nat, limit: nat, free: FreeLists, t: Tiling, clear: set<nat>, p: nat, o: nat)
    requires NodeInv(base, limit, free, t, clear) && o < MAX_ORDER == |free| - 1
    requires base <= p && p in t && t[p] == Block(o, Held) && OnlyHeld(t, p) && BuddyOf(p, o, base) in free[o]
    ensures var q := BuddyOf(p, o, base);
            var m, t' := if p < q then p else q, MergeTiling(t, p, q, o);
            && NodeInv(base, limit, Remove(free, o, q), t', clear)
            && m in t' && t'[m] == Block(o + 1, Held) && OnlyHeld(t', m) && SameLive(t, t')
  {
    hide Pow, NodeInv, MergeTiling, SameLive, OnlyHeld, BuddyOf;
    InvShape(base, limit, free, t, clear);
    var q := BuddyOf(p, o, base);
    assert Buddies(p, q, o, base);
    hide Buddies;
    MergeKeeps(base, limit, free, t, clear, p, q, o);
    MergeMarks(t, p, q, o);
  }

  lemma InvShape(base: nat, limit: nat, free: FreeLists, t: Tiling, clear: set<nat>)
    requires NodeInv(base, limit, free, t, clear)
    ensures |free| == MAX_ORDER + 1 && base < limit
    ensures forall o, p | 0 <= o <= MAX_ORDER && p in free[o] :: p in t && t[p] == Block(o, Free)
    ensures forall p | p in t :: base <= p && t[p].ord <= MAX_ORDER
  {
    hide Pow, Aligned;
  }

  lemma Reflexive(t: Tiling)
    ensures SameLive(t, t)
  {
  }

  lemma NotFreeClear(base: nat, limit: nat, free: FreeLists, t: Tiling, clear: set<nat>, q: nat, m: nat)
    requires NodeInv(base, limit, free, t, clear) && (limit <= q || !AllClear(clear, q, m))
    ensures !FreeClear(t, clear, q, m)
  {
    hide Pow, Aligned, AllClear;
    PowPositive(m);
  }

  lemma PowPositive(m: nat)
    ensures Pow(m) > 0
  {
  }

  lemma MergeMarks(t: Tiling, p: nat, q: nat, o: nat)
    requires p in t && t[p] == Block(o, Held) && OnlyHeld(t, p) && q in t && t[q] == Block(o, Free)
    ensures var t', m := MergeTiling(t, p, q, o), if p < q then p else q;
            m in t' && t'[m] == Block(o + 1, Held) && OnlyHeld(t', m) && SameLive(t, t')
  {
  }

  lemma OneHeld(t: Tiling, p: nat)
    requires OnlyHeld(t, p)
    ensures forall q | q in t && t[q].kind == Held :: q == p
  {
  }

  lemma Transitive(t: Tiling, u: Tiling, v: Tiling)
    requires SameLive(t, u) && SameLive(u, v)
    ensures SameLive(t, v)
  {
  }

  /** The coalescing loop only ever unlinks blocks that are on the list it unlinks them from. */
  lemma {:induction false} CoalesceMerges(base: nat, limit: nat, free: FreeLists, t: Tiling, clear: set<nat>, p: nat,
                                          o: nat)
    requires NodeInv(base, limit, free, t, clear) && EndMarked(clear, base, limit)
    requires p in t && t[p] == Block(o, Held) && OnlyHeld(t, p)
    ensures Coalesce(free, clear, base, limit, p, o).Merged?
    decreases MAX_ORDER - o
  {
    hide Pow, Coalesce, NodeInv, EndMarked, AllClear, MergeTiling, SameLive, OnlyHeld, BuddyOf;
    InvShape(base, limit, free, t, clear);
    CoalesceUnfold(free, clear, base, limit, p, o);
    var q := BuddyOf(p, o, base);
    if o < MAX_ORDER && q < limit && AllClear(clear, q, o) {
      OneHeld(t, p);
      ClearBuddyIsListed(base, limit, free, t, clear, p, o);
      MergeStep(base, limit, free, t, clear, p, o);
      CoalesceMerges(base, limit, Remove(free, o, q), MergeTiling(t, p, q, o), clear, if p < q then p else q, o + 1);
    }
  }

  lemma FreeNodeKeeps(base: nat, limit: nat, free: FreeLists, t: Tiling, clear: set<nat>, covered: nat, p: nat, o: nat)
    returns (t': Tiling)
    requires NodeInv(base, limit, free, t, clear) && NoHeld(t) && LiveAt(t, p, o)
    requires |free| == MAX_ORDER + 1 && base <= p && o <= MAX_ORDER
    requires Coalesce(free, clear + Covered(PagesOf(p, o), covered), base, limit, p, o).Merged?
    ensures var clear' := clear + Covered(PagesOf(p, o), covered);
            var r := Coalesce(free, clear', base, limit, p, o);
            NodeInv(base, limit, Push(r.free, r.ord, r.pfn), t', clear')
    ensures NoHeld(t') && forall k: nat :: !LiveAt(t', p, k)
    ensures forall q: nat, k: nat | q != p :: LiveAt(t, q, k) <==> LiveAt(t', q, k)
    ensures base <= p && p + Pow(o) <= limit
  {
    hide Pow, Aligned, Xor;
    var clear', t1 := clear + Covered(PagesOf(p, o), covered), t[p := Block(o, Held)];
    ReleaseKeeps(base, limit, free, t, clear, p, o, covered);
    var t2 := CoalesceKeeps(base, limit, free, t1, clear', p, o);
    var r := Coalesce(free, clear', base, limit, p, o);
    PutKeeps(base, limit, r.free, t2, clear', r.pfn, r.ord);
    t' := t2[r.pfn := Block(r.ord, Free)];
    assert forall q: nat, k: nat | q != p :: LiveAt(t, q, k) <==> LiveAt(t1, q, k);
    assert forall q: nat, k: nat :: LiveAt(t2, q, k) <==> LiveAt(t', q, k);
    assert forall k: nat :: !LiveAt(t1, p, k);
  }

  /** A free of a live block coalesces without a missing unlink. */
  lemma FreeNodeMerges(base: nat, limit: nat, free: FreeLists, t: Tiling, clear: set<nat>, covered: nat, p: nat, o: nat)
    requires NodeInv(base, limit, free, t, clear) && EndMarked(clear, base, limit) && NoHeld(t) && LiveAt(t, p, o)
    ensures |free| == MAX_ORDER + 1 && base <= p && o <= MAX_ORDER
    ensures Coalesce(free, clear + Covered(PagesOf(p, o), covered), base, limit, p, o).Merged?
  {
    hide Pow, Aligned, Xor;
    var clear', t1 := clear + Covered(PagesOf(p, o), covered), t[p := Block(o, Held)];
    ReleaseKeeps(base, limit, free, t, clear, p, o, covered);
    EndStays(base, limit, clear, clear', p, o, covered);
    CoalesceMerges(base, limit, free, t1, clear', p, o);
  }

  lemma EndStays(base: nat, limit: nat, clear: set<nat>, clear': set<nat>, p: nat, o: nat, covered: nat)
    requires EndMarked(clear, base, limit) && p + Pow(o) <= limit && clear' == clear + Covered(PagesOf(p, o), covered)
    ensures EndMarked(clear', base, limit)
  {
    hide Aligned, Pow;
    forall q: nat, k: nat | Overruns(q, k, base, limit)
      ensures !PastClear(clear', limit, q, k)
    {
      assert !PastClear(clear, limit, q, k);
      var x :| limit <= x < q + Pow(k) && x !in clear;
      assert x !in clear';
    }
  }
}
