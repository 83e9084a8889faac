/**
 The buddy allocator of mm/pmm.c on values.  Addresses are page frame numbers: every address the
 allocator handles after its first alignment is a multiple of the page size.

 A node's free lists are sequences with the head first.  `clear` is the set of pages whose bitmap
 bit reads 0; pages outside the bitmap are never in it.  A tiling records, for the proofs and for
 the callers' obligations, which block owns which pages: on a free list, live with a caller, or
 held by the operation in progress.
 */
module BuddySpec {
  import opened Pow2

  const MAX_ORDER: nat := 10
  const MAX_NODES: nat := 8
  const PAGE_SIZE: nat := 4096
  const FIRST_PAGE: nat := 0x1000   // the first 16 MB are never handed out

  type FreeLists = seq<seq<nat>>

  datatype Kind = Free | Live | Held
  datatype Block = Block(ord: nat, kind: Kind)
  type Tiling = map<nat, Block>

  // ---------------------------------------------------------------- free lists

  function Push(free: FreeLists, o: nat, p: nat): FreeLists
    requires o < |free|
  {
    free[o := [p] + free[o]]
  }

  function RemoveFirst(s: seq<nat>, p: nat): (r: seq<nat>)
    requires p in s
    ensures |r| == |s| - 1
  {
    if s[0] == p then s[1..] else [s[0]] + RemoveFirst(s[1..], p)
  }

  function Remove(free: FreeLists, o: nat, p: nat): FreeLists
    requires o < |free| && p in free[o]
  {
    free[o := RemoveFirst(free[o], p)]
  }

  predicate Distinct(s: seq<nat>)
  {
    forall i, j | 0 <= i < j < |s| :: s[i] != s[j]
  }

  lemma {:induction false} RemoveFirstFacts(s: seq<nat>, p: nat)
    requires p in s && Distinct(s)
    ensures var r := RemoveFirst(s, p); Distinct(r) && forall x :: x in r <==> x in s && x != p
  {
    if s[0] == p {
      assert forall x :: x in s <==> x == s[0] || x in s[1..];
    } else {
      RemoveFirstFacts(s[1..], p);
      var r := RemoveFirst(s, p);
      assert forall x :: x in s <==> x == s[0] || x in s[1..];
      assert r[1..] == RemoveFirst(s[1..], p) && forall x :: x in r <==> x == s[0] || x in r[1..];
      assert s[0] !in r[1..];
      forall i, j | 0 <= i < j < |r| ensures r[i] != r[j] {
        assert r[j] == r[1..][j - 1];
        if i > 0 { assert r[i] == r[1..][i - 1]; }
      }
    }
  }

  // ---------------------------------------------------------------- blocks, tilings and the invariant

  /** Relative to the node base: the address of the block that could merge with `p` at order `o`. */
  function BuddyOf(p: nat, o: nat, base: nat): nat
    requires base <= p
  {
    base + Xor(p - base, Pow(o))
  }

  predicate Buddies(p: nat, q: nat, o: nat, base: nat)
  {
    base <= p && q == BuddyOf(p, o, base)
  }

  predicate Covers(t: Tiling, p: nat, x: nat)
  {
    p in t && p <= x < p + Pow(t[p].ord)
  }

  ghost predicate Owned(t: Tiling, x: nat)
  {
    exists p: nat :: Covers(t, p, x)
  }

  predicate AllClear(clear: set<nat>, p: nat, o: nat)
  {
    forall x | p <= x < p + Pow(o) :: x in clear
  }

  /** Blocks lie in the node at offsets aligned to their size. */
  ghost predicate Placed(t: Tiling, base: nat, limit: nat)
  {
    forall p | p in t :: t[p].ord <= MAX_ORDER && base <= p && p + Pow(t[p].ord) <= limit
                         && Aligned(p - base, t[p].ord)
  }

  ghost predicate Disjoint(t: Tiling)
  {
    forall p, q | p in t && q in t && p < q :: p + Pow(t[p].ord) <= q
  }

  ghost predicate Complete(t: Tiling, base: nat, limit: nat)
  {
    forall x: nat | base <= x < limit :: Owned(t, x)
  }

  /** Aligned blocks that do not overlap and leave no page of the node out. */
  ghost predicate Tiled(t: Tiling, base: nat, limit: nat)
  {
    Placed(t, base, limit) && Disjoint(t) && Complete(t, base, limit)
  }

  /** The free lists hold exactly the free blocks, each once, at its order. */
  ghost predicate Listed(free: FreeLists, t: Tiling)
  {
    && |free| == MAX_ORDER + 1
    && (forall o, p | 0 <= o <= MAX_ORDER :: p in free[o] <==> p in t && t[p] == Block(o, Free))
    && (forall o | 0 <= o <= MAX_ORDER :: Distinct(free[o]))
  }

  /** No page of a live block has a clear bit. */
  ghost predicate LiveMarked(t: Tiling, clear: set<nat>)
  {
    forall p: nat, x: nat | Covers(t, p, x) && t[p].kind == Live :: x !in clear
  }

  predicate FreeClear(t: Tiling, clear: set<nat>, p: nat, o: nat)
  {
    p in t && t[p] == Block(o, Free) && AllClear(clear, p, o)
  }

  /** Free blocks whose bits are all clear have been merged: no two of them are buddies. */
  ghost predicate Coalesced(t: Tiling, clear: set<nat>, base: nat)
  {
    forall p: nat, q: nat, o: nat | o < MAX_ORDER && FreeClear(t, clear, p, o) && FreeClear(t, clear, q, o) ::
      !Buddies(p, q, o, base)
  }

  /** An upper buddy that starts inside the node and runs past its end. */
  predicate Overruns(q: nat, o: nat, base: nat, limit: nat)
  {
    o < MAX_ORDER && base <= q < limit < q + Pow(o) && Aligned(q - base, o) && !Aligned(q - base, o + 1)
  }

  predicate PastClear(clear: set<nat>, limit: nat, q: nat, o: nat)
  {
    forall x | limit <= x < q + Pow(o) :: x in clear
  }

  /** Whenever a buddy region runs past the end of the node, some page of it out there has its bit set. */
  ghost predicate EndMarked(clear: set<nat>, base: nat, limit: nat)
  {
    forall q: nat, o: nat | Overruns(q, o, base, limit) :: !PastClear(clear, limit, q, o)
  }

  ghost predicate NodeInv(base: nat, limit: nat, free: FreeLists, t: Tiling, clear: set<nat>)
  {
    && base < limit
    && Tiled(t, base, limit)
    && Listed(free, t)
    && LiveMarked(t, clear)
    && Coalesced(t, clear, base)
  }

  // ---------------------------------------------------------------- a clear region is one free block

  lemma SameStart(t: Tiling, base: nat, limit: nat, p: nat, q: nat, m: nat)
    requires Tiled(t, base, limit) && Covers(t, p, q)
    requires base <= q && Aligned(q - base, m) && t[p].ord <= m
    ensures p == q
  {
    AlignedDown(q - base, m, t[p].ord);
    if p < q { AlignedGap(p - base, q - base, t[p].ord); }
  }

  /** Every block that meets the region has at most its order and is not held. */
  ghost predicate Within(t: Tiling, q: nat, m: nat)
  {
    forall p: nat, x: nat | Covers(t, p, x) && q <= x < q + Pow(m) :: t[p].ord <= m && t[p].kind != Held
  }

  /** A block of order `m` that meets an aligned region of order `m` starts where the region starts. */
  lemma BlockIsRegion(t: Tiling, base: nat, limit: nat, s: nat, x: nat, q: nat, m: nat)
    requires Tiled(t, base, limit) && Covers(t, s, x) && t[s].ord == m
    requires base <= q <= x < q + Pow(m) && Aligned(q - base, m)
    ensures s == q
  {
    if s < q { AlignedGap(s - base, q - base, m); }
    if q < s { AlignedGap(q - base, s - base, m); }
  }

  lemma HalfWithin(t: Tiling, base: nat, limit: nat, q: nat, h: nat, r: nat)
    requires Tiled(t, base, limit) && Within(t, q, h + 1)
    requires base <= q && Aligned(q - base, h + 1) && q in t && t[q].ord <= h
    requires r == q || r == q + Pow(h)
    ensures Within(t, r, h)
  {
    hide Aligned;
    assert Pow(h + 1) == 2 * Pow(h);
    forall s: nat, x: nat | Covers(t, s, x) && r <= x < r + Pow(h) ensures t[s].ord <= h && t[s].kind != Held {
      assert q <= x < q + Pow(h + 1);
      if t[s].ord == h + 1 { BlockIsRegion(t, base, limit, s, x, q, h + 1); }
    }
  }

  lemma Halves(q: nat, h: nat, base: nat)
    requires base <= q && Aligned(q - base, h + 1)
    ensures Aligned(q - base, h) && Aligned(q + Pow(h) - base, h) && Pow(h + 1) == 2 * Pow(h)
    ensures Buddies(q, q + Pow(h), h, base) && Buddies(q + Pow(h), q, h, base)
  {
    HalvesAreBuddies(q - base, h);
    assert q + Pow(h) - base == (q - base) + Pow(h);
  }

  lemma FreeBlockStarts(t: Tiling, clear: set<nat>, base: nat, limit: nat, q: nat, m: nat)
    requires Tiled(t, base, limit) && LiveMarked(t, clear)
    requires base <= q && Aligned(q - base, m) && q + Pow(m) <= limit
    requires AllClear(clear, q, m) && Within(t, q, m)
    ensures q in t && t[q].kind == Free && t[q].ord <= m
  {
    assert Owned(t, q);
    var p :| Covers(t, p, q);
    SameStart(t, base, limit, p, q, m);
  }

  /** The heart of coalescing: a region of order `m` whose bits are all clear, that no larger block
      covers and that meets no held block, is on the free list of order `m` as one block. */
  lemma {:induction false} ClearRegionIsFree(t: Tiling, clear: set<nat>, base: nat, limit: nat, q: nat, m: nat)
    requires Tiled(t, base, limit) && LiveMarked(t, clear) && Coalesced(t, clear, base)
    requires m <= MAX_ORDER && base <= q && Aligned(q - base, m) && q + Pow(m) <= limit
    requires AllClear(clear, q, m) && Within(t, q, m)
    ensures q in t && t[q] == Block(m, Free)
    decreases m
  {
    FreeBlockStarts(t, clear, base, limit, q, m);
    if t[q].ord < m {
      var h := m - 1;
      var r := q + Pow(h);
      Halves(q, h, base);
      HalfWithin(t, base, limit, q, h, q);
      ClearRegionIsFree(t, clear, base, limit, q, h);
      HalfWithin(t, base, limit, q, h, r);
      ClearRegionIsFree(t, clear, base, limit, r, h);
      assert FreeClear(t, clear, q, h) && FreeClear(t, clear, r, h);
    }
  }

  // ---------------------------------------------------------------- the moves every operation is made of

  /** Taking a block off its free list. */
  lemma TakeKeeps(base: nat, limit: nat, free: FreeLists, t: Tiling, clear: set<nat>, o: nat, p: nat)
    requires NodeInv(base, limit, free, t, clear) && o <= MAX_ORDER && p in free[o]
    ensures NodeInv(base, limit, Remove(free, o, p), t[p := Block(o, Held)], clear)
  {
    assert p in t && t[p] == Block(o, Free);
    hide Pow, Tiled, Listed, LiveMarked, Coalesced;
    var t' := t[p := Block(o, Held)];
    SameShape(t, t', base, limit);
    TakeListed(free, t, p, o);
    HeldMarked(t, clear, p, o);
    HeldCoalesced(t, clear, base, p, o);
  }

  lemma TakeListed(free: FreeLists, t: Tiling, p: nat, o: nat)
    requires Listed(free, t) && o <= MAX_ORDER && p in free[o]
    ensures Listed(Remove(free, o, p), t[p := Block(o, Held)])
  {
    RemoveFirstFacts(free[o], p);
    var free', t' := Remove(free, o, p), t[p := Block(o, Held)];
    forall k, q | 0 <= k <= MAX_ORDER
      ensures q in free'[k] <==> q in t' && t'[q] == Block(k, Free)
    {
      assert q in free[k] <==> q in t && t[q] == Block(k, Free);
      assert p in t && t[p] == Block(o, Free);
    }
  }

  lemma HeldMarked(t: Tiling, clear: set<nat>, p: nat, o: nat)
    requires LiveMarked(t, clear) && p in t && t[p].ord == o
    ensures LiveMarked(t[p := Block(o, Held)], clear)
  {
    hide Pow;
    var t' := t[p := Block(o, Held)];
    forall q: nat, x: nat | Covers(t', q, x) && t'[q].kind == Live
      ensures x !in clear
    {
      assert Covers(t, q, x);
    }
  }

  lemma HeldCoalesced(t: Tiling, clear: set<nat>, base: nat, p: nat, o: nat)
    requires Coalesced(t, clear, base)
    ensures Coalesced(t[p := Block(o, Held)], clear, base)
  {
    hide Pow, Buddies;
    assert forall q: nat, k: nat | FreeClear(t[p := Block(o, Held)], clear, q, k) :: FreeClear(t, clear, q, k);
  }

  /** Changing only the kinds of blocks keeps the tiling. */
  lemma SameShape(t: Tiling, t': Tiling, base: nat, limit: nat)
    requires Tiled(t, base, limit) && t'.Keys == t.Keys
    requires forall p | p in t :: t'[p].ord == t[p].ord
    ensures Tiled(t', base, limit)
  {
    forall x: nat | base <= x < limit ensures Owned(t', x) {
      assert Owned(t, x);
      var p :| Covers(t, p, x);
      assert Covers(t', p, x);
    }
  }

  function SplitTiling(t: Tiling, p: nat, h: nat): Tiling
  {
    t[p := Block(h, Held)][p + Pow(h) := Block(h, Free)]
  }

  lemma SplitTiled(t: Tiling, base: nat, limit: nat, p: nat, h: nat)
    requires Tiled(t, base, limit) && p in t && t[p].ord == h + 1
    ensures Tiled(SplitTiling(t, p, h), base, limit) && p + Pow(h) !in t
  {
    hide Pow, Aligned, Disjoint, Complete, SplitTiling;
    Halves(p, h, base);
    SplitPlaced(t, base, limit, p, h);
    SplitDisjoint(t, p, h);
    SplitComplete(t, base, limit, p, h);
  }

  lemma SplitPlaced(t: Tiling, base: nat, limit: nat, p: nat, h: nat)
    requires Placed(t, base, limit) && p in t && t[p].ord == h + 1 && Pow(h + 1) == 2 * Pow(h)
    requires Aligned(p - base, h) && Aligned(p + Pow(h) - base, h)
    ensures Placed(SplitTiling(t, p, h), base, limit)
  {
    hide Pow, Aligned;
  }

  lemma SplitDisjoint(t: Tiling, p: nat, h: nat)
    requires Disjoint(t) && p in t && t[p].ord == h + 1
    ensures Disjoint(SplitTiling(t, p, h)) && p + Pow(h) !in t
  {
    var t', q := SplitTiling(t, p, h), p + Pow(h);
    assert Pow(h + 1) == 2 * Pow(h);
    forall a, b | a in t' && b in t' && a < b ensures a + Pow(t'[a].ord) <= b {
      if b == q {
        assert a == p || (a in t && t'[a] == t[a]);
      } else if a == q {
        assert b in t && p < b;
      } else {
        assert a in t && b in t;
      }
    }
  }

  lemma SplitComplete(t: Tiling, base: nat, limit: nat, p: nat, h: nat)
    requires Complete(t, base, limit) && Disjoint(t) && p in t && t[p].ord == h + 1
    ensures Complete(SplitTiling(t, p, h), base, limit)
  {
    var t' := SplitTiling(t, p, h);
    forall x: nat | base <= x < limit ensures Owned(t', x) {
      assert Owned(t, x);
      var q :| Covers(t, q, x);
      var q' := if q == p && p + Pow(h) <= x then p + Pow(h) else q;
      assert Covers(t', q', x);
    }
  }

  /** Splitting a held block in two and putting the upper half on the free list. */
  lemma SplitKeeps(base: nat, limit: nat, free: FreeLists, t: Tiling, clear: set<nat>, p: nat, h: nat)
    requires NodeInv(base, limit, free, t, clear) && p in t && t[p] == Block(h + 1, Held)
    ensures h < MAX_ORDER && NodeInv(base, limit, Push(free, h, p + Pow(h)), SplitTiling(t, p, h), clear)
  {
    assert h < MAX_ORDER by {
      OrderBound(t, base, limit, p);
    }
    hide Pow, Tiled, Listed, LiveMarked, Coalesced, SplitTiling;
    SplitTiled(t, base, limit, p, h);
    SplitListed(free, t, p, h);
    SplitMarked(t, clear, p, h);
    SplitCoalesced(t, clear, base, limit, p, h);
  }

  lemma OrderBound(t: Tiling, base: nat, limit: nat, p: nat)
    requires Tiled(t, base, limit) && p in t
    ensures t[p].ord <= MAX_ORDER
  {
  }

  lemma SplitListed(free: FreeLists, t: Tiling, p: nat, h: nat)
    requires Listed(free, t) && h < MAX_ORDER && p in t && t[p].kind == Held && p + Pow(h) !in t
    ensures Listed(Push(free, h, p + Pow(h)), SplitTiling(t, p, h))
  {
    hide Pow, Listed;
    PushListed(free, t, h, p + Pow(h), SplitTiling(t, p, h));
  }

  lemma SplitMarked(t: Tiling, clear: set<nat>, p: nat, h: nat)
    requires LiveMarked(t, clear) && p in t
    ensures LiveMarked(SplitTiling(t, p, h), clear)
  {
    hide Pow;
    var t' := SplitTiling(t, p, h);
    forall r: nat, x: nat | Covers(t', r, x) && t'[r].kind == Live
      ensures x !in clear
    {
      assert t'[r] == t[r] && Covers(t, r, x);
    }
  }

  lemma SplitCoalesced(t: Tiling, clear: set<nat>, base: nat, limit: nat, p: nat, h: nat)
    requires Coalesced(t, clear, base) && Tiled(t, base, limit) && p in t && t[p] == Block(h + 1, Held)
    ensures Coalesced(SplitTiling(t, p, h), clear, base)
  {
    hide Pow, Aligned, Xor;
    var t', q := SplitTiling(t, p, h), p + Pow(h);
    Halves(p, h, base);
    SplitTiled(t, base, limit, p, h);
    BuddyUnique(base, p, q, h);
    BuddyUnique(base, q, p, h);
    forall r: nat, k: nat | FreeClear(t', clear, r, k)
      ensures FreeClear(t, clear, r, k) || (r == q && k == h)
    {
    }
    CoalescedAdd(t, t', clear, base, limit, q, h);
  }

  /** One more free block keeps the list coalesced when its buddy is not free and clear. */
  lemma CoalescedAdd(t: Tiling, t': Tiling, clear: set<nat>, base: nat, limit: nat, p: nat, o: nat)
    requires Coalesced(t, clear, base) && Placed(t', base, limit)
    requires base <= p && Aligned(p - base, o)
    requires forall q: nat, k: nat | FreeClear(t', clear, q, k) :: FreeClear(t, clear, q, k) || (q == p && k == o)
    requires !FreeClear(t', clear, BuddyOf(p, o, base), o)
    ensures Coalesced(t', clear, base)
  {
    BuddyUnique(base, p, BuddyOf(p, o, base), o);
    forall q: nat, r: nat, k: nat | k < MAX_ORDER && FreeClear(t', clear, q, k) && FreeClear(t', clear, r, k)
      ensures !Buddies(q, r, k, base)
    {
      if r == p && k == o && Buddies(q, r, k, base) {
        BuddyUnique(base, q, p, o);
      }
    }
  }

  /** A block has one buddy per order, and is its buddy's buddy. */
  lemma BuddyUnique(base: nat, p: nat, q: nat, o: nat)
    requires base <= p && Aligned(p - base, o) && Buddies(p, q, o, base)
    ensures Aligned(q - base, o) && Buddies(q, p, o, base) && p != q
    ensures forall r: nat {:trigger Buddies(r, q, o, base)} | Buddies(r, q, o, base) && Aligned(r - base, o) :: r == p
  {
    hide Aligned, Pow, Xor;
    BuddyFacts(p - base, o);
    forall r: nat | Buddies(r, q, o, base) && Aligned(r - base, o) ensures r == p {
      BuddyFacts(r - base, o);
    }
  }

  lemma PushListed(free: FreeLists, t: Tiling, o: nat, p: nat, t': Tiling)
    requires Listed(free, t) && o <= MAX_ORDER && p in t' && t'[p] == Block(o, Free)
    requires p in t ==> t[p].kind != Free
    requires forall q | q != p :: (q in t && t[q].kind == Free ==> q in t' && t'[q] == t[q])
                                  && (q in t' && t'[q].kind == Free ==> q in t && t'[q] == t[q])
    ensures Listed(Push(free, o, p), t')
  {
    var free' := Push(free, o, p);
    assert p !in free[o];
    forall k | 0 <= k <= MAX_ORDER ensures Distinct(free'[k]) {
      if k == o {
        forall i, j | 0 <= i < j < |free'[o]| ensures free'[o][i] != free'[o][j] {
          assert free'[o][j] == free[o][j - 1];
        }
      }
    }
    assert forall q :: q in free'[o] <==> q == p || q in free[o];
  }

  predicate InBlock(p: nat, o: nat, x: nat) { p <= x < p + Pow(o) }

  function PagesOf(p: nat, o: nat): set<nat>
  {
    set x: nat | x < p + Pow(o) && InBlock(p, o, x)
  }

  /** Handing a held block out: its bits are set. */
  lemma CommitKeeps(base: nat, limit: nat, free: FreeLists, t: Tiling, clear: set<nat>, p: nat, o: nat)
    requires NodeInv(base, limit, free, t, clear) && p in t && t[p] == Block(o, Held)
    ensures NodeInv(base, limit, free, t[p := Block(o, Live)], clear - PagesOf(p, o))
  {
    hide Pow, Aligned, Xor;
    var t', clear' := t[p := Block(o, Live)], clear - PagesOf(p, o);
    SameShape(t, t', base, limit);
    assert forall q: nat, x: nat | Covers(t', q, x) :: Covers(t, q, x);
    forall q: nat, k: nat | FreeClear(t', clear', q, k) ensures FreeClear(t, clear, q, k) {
      forall x | q <= x < q + Pow(k) ensures x in clear { assert x in clear'; }
    }
  }

  /** Taking a live block back: the bits of those of its pages that the bitmap covers are cleared. */
  lemma ReleaseKeeps(base: nat, limit: nat, free: FreeLists, t: Tiling, clear: set<nat>, p: nat, o: nat, covered: nat)
    requires NodeInv(base, limit, free, t, clear) && p in t && t[p] == Block(o, Live)
    ensures NodeInv(base, limit, free, t[p := Block(o, Held)], clear + Covered(PagesOf(p, o), covered))
  {
    hide Pow, Aligned, Xor;
    var t', clear' := t[p := Block(o, Held)], clear + Covered(PagesOf(p, o), covered);
    SameShape(t, t', base, limit);
    forall q: nat, x: nat | Covers(t', q, x) && q != p ensures x in clear' ==> x in clear {
      assert Covers(t, q, x);
    }
    assert LiveMarked(t', clear');
    forall q: nat, k: nat | FreeClear(t', clear', q, k) ensures FreeClear(t, clear, q, k) {
      forall x | q <= x < q + Pow(k) ensures x in clear {
        assert Covers(t', q, x);
      }
    }
  }

  function Covered(pages: set<nat>, covered: nat): set<nat>
  {
    set x | x in pages && x < covered
  }

  function MergeTiling(t: Tiling, p: nat, q: nat, o: nat): Tiling
  {
    (t - {p, q})[if p < q then p else q := Block(o + 1, Held)]
  }

  lemma MergeTiled(t: Tiling, base: nat, limit: nat, p: nat, q: nat, o: nat)
    requires Tiled(t, base, limit) && o < MAX_ORDER
    requires p in t && t[p].ord == o && q in t && t[q].ord == o && Buddies(p, q, o, base)
    ensures Tiled(MergeTiling(t, p, q, o), base, limit)
  {
    hide Pow, Aligned, Disjoint, Complete, MergeTiling, Buddies;
    BuddyPair(base, p, q, o);
    MergeDisjoint(t, p, q, o);
    MergePlaced(t, base, limit, p, q, o);
    MergeComplete(t, base, limit, p, q, o);
  }

  lemma MergePlaced(t: Tiling, base: nat, limit: nat, p: nat, q: nat, o: nat)
    requires Placed(t, base, limit) && o < MAX_ORDER && p in t && t[p].ord == o && q in t && t[q].ord == o
    requires Pow(o + 1) == 2 * Pow(o)
    requires (q == p + Pow(o) && Aligned(p - base, o + 1)) || (p == q + Pow(o) && Aligned(q - base, o + 1))
    ensures Placed(MergeTiling(t, p, q, o), base, limit)
  {
    hide Pow, Aligned;
  }

  /** Buddies are the two halves of an aligned block one order up. */
  lemma BuddyPair(base: nat, p: nat, q: nat, o: nat)
    requires base <= p && Aligned(p - base, o) && Buddies(p, q, o, base)
    ensures base <= q && Pow(o + 1) == 2 * Pow(o)
    ensures (q == p + Pow(o) && Aligned(p - base, o + 1)) || (p == q + Pow(o) && Aligned(q - base, o + 1))
  {
    BuddyFacts(p - base, o);
  }

  lemma MergeComplete(t: Tiling, base: nat, limit: nat, p: nat, q: nat, o: nat)
    requires Complete(t, base, limit) && p in t && t[p].ord == o && q in t && t[q].ord == o
    requires q == p + Pow(o) || p == q + Pow(o)
    ensures Complete(MergeTiling(t, p, q, o), base, limit)
  {
    var t', m := MergeTiling(t, p, q, o), if p < q then p else q;
    assert Pow(o + 1) == 2 * Pow(o);
    forall x: nat | base <= x < limit ensures Owned(t', x) {
      assert Owned(t, x);
      var r: nat :| Covers(t, r, x);
      var r': nat := if r == p || r == q then m else r;
      assert Covers(t', r', x);
    }
  }

  lemma MergeDisjoint(t: Tiling, p: nat, q: nat, o: nat)
    requires Disjoint(t) && p in t && t[p].ord == o && q in t && t[q].ord == o
    requires q == p + Pow(o) || p == q + Pow(o)
    ensures Disjoint(MergeTiling(t, p, q, o))
  {
    var t' := MergeTiling(t, p, q, o);
    assert Pow(o + 1) == 2 * Pow(o);
    var m, n := if p < q then p else q, if p < q then q else p;
    forall a, b | a in t' && b in t' && a < b ensures a + Pow(t'[a].ord) <= b {
      if a == m {
        assert b in t && m < b && b != n;
      } else if b == m {
        assert a in t;
      } else {
        assert a in t && b in t;
      }
    }
  }

  /** Merging the held block with its free buddy, which leaves its list. */
  lemma MergeKeeps(base: nat, limit: nat, free: FreeLists, t: Tiling, clear: set<nat>, p: nat, q: nat, o: nat)
    requires NodeInv(base, limit, free, t, clear) && o < MAX_ORDER && p in t && t[p] == Block(o, Held)
    requires Buddies(p, q, o, base) && q in t && t[q] == Block(o, Free)
    ensures NodeInv(base, limit, Remove(free, o, q), MergeTiling(t, p, q, o), clear)
  {
    assert q in free[o];
    hide Pow, Tiled, Listed, LiveMarked, Coalesced, MergeTiling, Buddies;
    MergeTiled(t, base, limit, p, q, o);
    MergeListed(free, t, p, q, o);
    MergeMarked(t, clear, p, q, o);
    MergeCoalesced(t, clear, base, p, q, o);
  }

  lemma MergeListed(free: FreeLists, t: Tiling, p: nat, q: nat, o: nat)
    requires Listed(free, t) && o < MAX_ORDER && p in t && t[p].kind == Held && q in t && t[q] == Block(o, Free)
    requires q in free[o]
    ensures Listed(Remove(free, o, q), MergeTiling(t, p, q, o))
  {
    RemoveFirstFacts(free[o], q);
    var free', t' := Remove(free, o, q), MergeTiling(t, p, q, o);
    forall k, r | 0 <= k <= MAX_ORDER
      ensures r in free'[k] <==> r in t' && t'[r] == Block(k, Free)
    {
      assert r in free[k] <==> r in t && t[r] == Block(k, Free);
    }
  }

  lemma MergeMarked(t: Tiling, clear: set<nat>, p: nat, q: nat, o: nat)
    requires LiveMarked(t, clear)
    ensures LiveMarked(MergeTiling(t, p, q, o), clear)
  {
    hide Pow;
    var t' := MergeTiling(t, p, q, o);
    forall r: nat, x: nat | Covers(t', r, x) && t'[r].kind == Live
      ensures x !in clear
    {
      assert t'[r] == t[r] && Covers(t, r, x);
    }
  }

  lemma MergeCoalesced(t: Tiling, clear: set<nat>, base: nat, p: nat, q: nat, o: nat)
    requires Coalesced(t, clear, base)
    ensures Coalesced(MergeTiling(t, p, q, o), clear, base)
  {
    hide Pow, Buddies;
    assert forall r: nat, k: nat | FreeClear(MergeTiling(t, p, q, o), clear, r, k) :: FreeClear(t, clear, r, k);
  }

  /** Putting the held block on its list, once its buddy cannot be merged. */
  lemma PutKeeps(base: nat, limit: nat, free: FreeLists, t: Tiling, clear: set<nat>, p: nat, o: nat)
    requires NodeInv(base, limit, free, t, clear) && p in t && t[p] == Block(o, Held)
    requires o == MAX_ORDER || !FreeClear(t, clear, BuddyOf(p, o, base), o)
    ensures NodeInv(base, limit, Push(free, o, p), t[p := Block(o, Free)], clear)
  {
    hide Pow, Aligned, Xor;
    var t' := t[p := Block(o, Free)];
    SameShape(t, t', base, limit);
    PushListed(free, t, o, p, t');
    assert forall q: nat, x: nat | Covers(t', q, x) :: Covers(t, q, x);
    assert forall q: nat, k: nat | FreeClear(t', clear, q, k) :: FreeClear(t, clear, q, k) || (q == p && k == o);
    if o < MAX_ORDER {
      BuddyUnique(base, p, BuddyOf(p, o, base), o);
      CoalescedAdd(t, t', clear, base, limit, p, o);
    }
  }

  /** A buddy that starts inside the node and whose bits are all clear is on the free list of this order. */
  lemma ClearBuddyIsListed(base: nat, limit: nat, free: FreeLists, t: Tiling, clear: set<nat>, p: nat, o: nat)
    requires NodeInv(base, limit, free, t, clear) && EndMarked(clear, base, limit)
    requires o < MAX_ORDER && p in t && t[p] == Block(o, Held)
    requires forall q | q in t && t[q].kind == Held :: q == p
    requires BuddyOf(p, o, base) < limit && AllClear(clear, BuddyOf(p, o, base), o)
    ensures BuddyOf(p, o, base) in free[o]
  {
    var q := BuddyOf(p, o, base);
    BuddyUnique(base, p, q, o);
    BuddyInside(t, clear, base, limit, p, q, o);
    BuddyWithin(t, base, limit, p, q, o);
    ClearRegionIsFree(t, clear, base, limit, q, o);
  }

  /** A buddy that starts inside the node and is clear does not run past its end. */
  lemma BuddyInside(t: Tiling, clear: set<nat>, base: nat, limit: nat, p: nat, q: nat, o: nat)
    requires Tiled(t, base, limit) && EndMarked(clear, base, limit) && o < MAX_ORDER && p in t && t[p].ord == o
    requires Buddies(p, q, o, base) && q < limit && AllClear(clear, q, o)
    ensures base <= q && q + Pow(o) <= limit
  {
    hide Aligned, Xor, Pow;
    BuddyPair(base, p, q, o);
    BuddyUnique(base, p, q, o);
    if p < q {
      UpperHalf(p - base, o);
      assert q - base == p - base + Pow(o);
    }
    assert PastClear(clear, limit, q, o);
    assert !Overruns(q, o, base, limit);
  }

  lemma UpperHalf(x: nat, o: nat)
    requires Aligned(x, o + 1)
    ensures !Aligned(x + Pow(o), o + 1)
  {
    hide Aligned;
    if Aligned(x + Pow(o), o + 1) {
      AlignedGap(x, x + Pow(o), o + 1);
    }
  }

  lemma BuddyWithin(t: Tiling, base: nat, limit: nat, p: nat, q: nat, o: nat)
    requires Tiled(t, base, limit) && p in t && t[p].ord == o && Buddies(p, q, o, base)
    requires forall r | r in t && t[r].kind == Held :: r == p
    ensures Within(t, q, o)
  {
    hide Aligned, Xor;
    BuddyPair(base, p, q, o);
    forall r: nat, x: nat | Covers(t, r, x) && q <= x < q + Pow(o) ensures t[r].ord <= o && t[r].kind != Held {
      if t[r].ord > o {
        var m := if p < q then p else q;
        BlockHoldsRegion(t, base, limit, r, x, m, o + 1);
      }
    }
  }

  /** A block of at least the region's order that meets the region contains it. */
  lemma BlockHoldsRegion(t: Tiling, base: nat, limit: nat, s: nat, x: nat, q: nat, m: nat)
    requires Tiled(t, base, limit) && Covers(t, s, x) && t[s].ord >= m
    requires base <= q <= x < q + Pow(m) && Aligned(q - base, m)
    ensures s <= q && q + Pow(m) <= s + Pow(t[s].ord)
  {
    hide Aligned, Pow;
    AlignedDown(s - base, t[s].ord, m);
    if q < s { AlignedGap(q - base, s - base, m); }
    Nested(q - base, m, s - base, t[s].ord);
  }
}
