/** The circular lists of include/nekros/types.h as kernel/sched.c uses them: one head per band, one node in
    each task. */
module RunLists {
  import opened Sched

  /** The address of a list head or of a task's queue node. */
  datatype Link = Head(band: nat) | Node(pid: nat)

  type Links = map<Link, Link>

  /** Going round the list of band `b`: the head, the queue in order, the head again. */
  function At(b: nat, q: seq<nat>, k: nat): Link
    requires k <= |q| + 1
  {
    if k == 0 || k == |q| + 1 then Head(b) else Node(q[k - 1])
  }

  ghost predicate Joined(next: Links, prev: Links, x: Link, y: Link)
  {
    x in next && next[x] == y && y in prev && prev[y] == x
  }

  /** Following `next` from the head visits exactly the queue, in order, and `prev` goes the other way. */
  ghost predicate Circle(next: Links, prev: Links, b: nat, q: seq<nat>)
  {
    forall k: nat | k <= |q| :: Joined(next, prev, At(b, q, k), At(b, q, k + 1))
  }

  ghost predicate OnLoop(b: nat, q: seq<nat>, x: Link) { x == Head(b) || (x.Node? && x.pid in q) }

  lemma AtOnLoop(b: nat, q: seq<nat>, k: nat)
    requires k <= |q| + 1
    ensures OnLoop(b, q, At(b, q, k))
  {
  }

  lemma AtApart(b: nat, q: seq<nat>, j: nat, k: nat)
    requires Distinct(q) && j < k <= |q| + 1 && (j > 0 || k <= |q|)
    ensures At(b, q, j) != At(b, q, k)
  {
  }

  /** Only the links stored in a list's own nodes matter to it. */
  lemma CircleFrame(next: Links, prev: Links, next': Links, prev': Links, b: nat, q: seq<nat>)
    requires Circle(next, prev, b, q)
    requires forall x | OnLoop(b, q, x) && x in next :: x in next' && next'[x] == next[x]
    requires forall x | OnLoop(b, q, x) && x in prev :: x in prev' && prev'[x] == prev[x]
    ensures Circle(next', prev', b, q)
  {
    forall k: nat | k <= |q|
      ensures Joined(next', prev', At(b, q, k), At(b, q, k + 1))
    {
      assert Joined(next, prev, At(b, q, k), At(b, q, k + 1));
      AtOnLoop(b, q, k);
      AtOnLoop(b, q, k + 1);
    }
  }

  lemma CircleNext(next: Links, prev: Links, b: nat, q: seq<nat>, k: nat)
    requires Circle(next, prev, b, q) && k <= |q|
    ensures At(b, q, k) in next && next[At(b, q, k)] == At(b, q, k + 1)
  {
    assert Joined(next, prev, At(b, q, k), At(b, q, k + 1));
  }

  // ---------------------------------------------------------------- adding at the tail

  /** `list_add_tail`. */
  function NextAdded(next: Links, prev: Links, b: nat, p: nat): Links
    requires Head(b) in prev
  {
    next[Node(p) := Head(b)][prev[Head(b)] := Node(p)]
  }

  function PrevAdded(prev: Links, b: nat, p: nat): Links
    requires Head(b) in prev
  {
    prev[Head(b) := Node(p)][Node(p) := prev[Head(b)]]
  }

  lemma CircleAdd(next: Links, prev: Links, b: nat, q: seq<nat>, p: nat)
    requires Circle(next, prev, b, q) && Distinct(q) && p !in q
    ensures Head(b) in prev && OnLoop(b, q, prev[Head(b)]) && Distinct(q + [p])
    ensures Circle(NextAdded(next, prev, b, p), PrevAdded(prev, b, p), b, q + [p])
  {
    var n, r := |q|, q + [p];
    assert Joined(next, prev, At(b, q, n), At(b, q, n + 1));
    AtOnLoop(b, q, n);
    var next', prev' := NextAdded(next, prev, b, p), PrevAdded(prev, b, p);
    forall k: nat | k <= |r|
      ensures Joined(next', prev', At(b, r, k), At(b, r, k + 1))
    {
      assert k <= n ==> At(b, r, k) == At(b, q, k);
      if k < n {
        AddBefore(next, prev, b, q, p, k);
      }
    }
  }

  lemma AddBefore(next: Links, prev: Links, b: nat, q: seq<nat>, p: nat, k: nat)
    requires Circle(next, prev, b, q) && Distinct(q) && p !in q && k < |q| && Head(b) in prev
             && prev[Head(b)] == At(b, q, |q|)
    ensures Joined(NextAdded(next, prev, b, p), PrevAdded(prev, b, p), At(b, q, k), At(b, q, k + 1))
  {
    assert Joined(next, prev, At(b, q, k), At(b, q, k + 1));
    AtApart(b, q, k, |q|);
    AtOnLoop(b, q, k);
    AtOnLoop(b, q, k + 1);
  }

  // ---------------------------------------------------------------- deleting

  /** `list_del`; the node's own links become NULL. */
  function NextDeleted(next: Links, prev: Links, p: nat): Links
    requires Node(p) in next && Node(p) in prev
  {
    next[prev[Node(p)] := next[Node(p)]] - {Node(p)}
  }

  function PrevDeleted(next: Links, prev: Links, p: nat): Links
    requires Node(p) in next && Node(p) in prev
  {
    prev[next[Node(p)] := prev[Node(p)]] - {Node(p)}
  }

  lemma {:induction false} WithoutAt(q: seq<nat>, k: nat)
    requires k < |q| && forall i | 0 <= i < k :: q[i] != q[k]
    ensures Without(q, q[k]) == q[..k] + q[k + 1..]
  {
    if k == 0 {
      assert Without(q, q[0]) == q[1..];
    } else {
      var rest := q[1..];
      assert rest[k - 1] == q[k] && forall i | 0 <= i < k - 1 :: rest[i] == q[i + 1];
      WithoutAt(rest, k - 1);
      TailSplit(q, k);
    }
  }

  lemma TailSplit(q: seq<nat>, k: nat)
    requires 0 < k < |q|
    ensures q[..k] + q[k + 1..] == [q[0]] + (q[1..][..k - 1] + q[1..][k..])
  {
    assert q[..k] == [q[0]] + q[1..][..k - 1];
    assert q[k + 1..] == q[1..][k..];
  }

  lemma CircleDelete(next: Links, prev: Links, b: nat, q: seq<nat>, p: nat)
    requires Circle(next, prev, b, q) && Distinct(q) && p in q
    ensures Node(p) in next && Node(p) in prev
    ensures OnLoop(b, q, next[Node(p)]) && OnLoop(b, q, prev[Node(p)])
    ensures next[Node(p)] != Node(p) && prev[Node(p)] != Node(p)
    ensures Circle(NextDeleted(next, prev, p), PrevDeleted(next, prev, p), b, Without(q, p))
  {
    var k: nat :| k < |q| && q[k] == p;
    Neighbours(next, prev, b, q, k);
    WithoutAt(q, k);
    var r := q[..k] + q[k + 1..];
    hide At;
    forall i: nat | i <= |r|
      ensures Joined(NextDeleted(next, prev, p), PrevDeleted(next, prev, p), At(b, r, i), At(b, r, i + 1))
    {
      DeletedAt(next, prev, b, q, k, i);
    }
  }

  lemma DeletedAt(next: Links, prev: Links, b: nat, q: seq<nat>, k: nat, i: nat)
    requires Circle(next, prev, b, q) && Distinct(q) && k < |q| && i < |q|
    ensures Node(q[k]) in next && Node(q[k]) in prev
    ensures var r := q[..k] + q[k + 1..];
            Joined(NextDeleted(next, prev, q[k]), PrevDeleted(next, prev, q[k]), At(b, r, i), At(b, r, i + 1))
  {
    Neighbours(next, prev, b, q, k);
    SkipAt(b, q, k, i);
    SkipAt(b, q, k, i + 1);
    hide At, Circle;
    if i != k {
      DeleteAway(next, prev, b, q, k, if i < k then i else i + 1);
    }
  }

  lemma SkipAt(b: nat, q: seq<nat>, k: nat, i: nat)
    requires k < |q| && i <= |q|
    ensures At(b, q[..k] + q[k + 1..], i) == At(b, q, if i <= k then i else i + 1)
  {
  }

  lemma Neighbours(next: Links, prev: Links, b: nat, q: seq<nat>, k: nat)
    requires Circle(next, prev, b, q) && Distinct(q) && k < |q|
    ensures var x := Node(q[k]);
            && x in next && x in prev && prev[x] == At(b, q, k) && next[x] == At(b, q, k + 2)
            && prev[x] != x && next[x] != x && OnLoop(b, q, prev[x]) && OnLoop(b, q, next[x])
  {
    assert Joined(next, prev, At(b, q, k), At(b, q, k + 1)) && Joined(next, prev, At(b, q, k + 1), At(b, q, k + 2));
    AtApart(b, q, k, k + 1);
    AtApart(b, q, k + 1, k + 2);
    AtOnLoop(b, q, k);
    AtOnLoop(b, q, k + 2);
  }

  lemma DeleteAway(next: Links, prev: Links, b: nat, q: seq<nat>, k: nat, i: nat)
    requires Circle(next, prev, b, q) && Distinct(q) && k < |q| && i <= |q| && (i < k || i > k + 1)
    ensures Node(q[k]) in next && Node(q[k]) in prev
    ensures Joined(NextDeleted(next, prev, q[k]), PrevDeleted(next, prev, q[k]), At(b, q, i), At(b, q, i + 1))
  {
    Neighbours(next, prev, b, q, k);
    assert Joined(next, prev, At(b, q, i), At(b, q, i + 1));
    if i < k {
      AtApart(b, q, i, k);
      AtApart(b, q, i + 1, k + 1);
      AtApart(b, q, i, k + 1);
      if i + 1 < k + 2 && (i + 1 > 0 || k + 2 <= |q|) {
        AtApart(b, q, i + 1, k + 2);
      }
    } else {
      AtApart(b, q, k + 1, i);
      AtApart(b, q, k + 1, i + 1);
      AtApart(b, q, k + 2, i + 1);
      if k > 0 || i <= |q| {
        AtApart(b, q, k, i);
      }
    }
  }

  // ---------------------------------------------------------------- all bands

  ghost predicate Apart(lists: seq<seq<nat>>)
  {
    forall b: nat, c: nat, p: nat | b < |lists| && c < |lists| && p in lists[b] && p in lists[c] :: b == c
  }

  ghost predicate Circles(next: Links, prev: Links, lists: seq<seq<nat>>)
  {
    && |lists| == BANDS && Apart(lists)
    && (forall b: nat | b < BANDS :: Circle(next, prev, b, lists[b]) && Distinct(lists[b]))
  }

  /** A change confined to the nodes of one list and to one node on no list keeps the other lists. */
  lemma OtherCircles(next: Links, prev: Links, next': Links, prev': Links, lists: seq<seq<nat>>, b: nat, p: nat, c: nat)
    requires Circles(next, prev, lists) && b < BANDS && c < BANDS && b != c && p !in lists[c]
    requires forall x | x != Node(p) && !OnLoop(b, lists[b], x) && x in next :: x in next' && next'[x] == next[x]
    requires forall x | x != Node(p) && !OnLoop(b, lists[b], x) && x in prev :: x in prev' && prev'[x] == prev[x]
    ensures Circle(next', prev', c, lists[c])
  {
    hide Circle;
    forall x | OnLoop(c, lists[c], x)
      ensures x != Node(p) && !OnLoop(b, lists[b], x)
    {
      assert x.Node? ==> x.pid in lists[c];
    }
    CircleFrame(next, prev, next', prev', c, lists[c]);
  }

  ghost predicate OnNone(lists: seq<seq<nat>>, p: nat) { forall b: nat | b < |lists| :: p !in lists[b] }

  class RunQueues {
    var next: Links
    var prev: Links
    ghost var lists: seq<seq<nat>>

    ghost predicate Valid()
      reads this
    {
      Circles(next, prev, lists)
    }

    /** `sched_init`: sixteen empty lists. */
    constructor ()
      ensures Valid() && lists == Repeat([], BANDS)
    {
      next, prev := map[], map[];
      lists := Repeat([], BANDS);
      new;
      var b := 0;
      while b < BANDS
        invariant 0 <= b <= BANDS && lists == Repeat([], BANDS)
        invariant forall c: nat | c < b :: Circle(next, prev, c, [])
      {
        ghost var n, m := next, prev;
        next, prev := next[Head(b) := Head(b)], prev[Head(b) := Head(b)];
        forall c: nat | c < b
          ensures Circle(next, prev, c, [])
        {
          CircleFrame(n, m, next, prev, c, []);
        }
        b := b + 1;
      }
    }

    /** `list_add_tail` on the list of band `b`, for a task that is on no list. */
    method AddTail(b: nat, p: nat)
      requires Valid() && b < BANDS && OnNone(lists, p)
      modifies this
      ensures Valid() && |old(lists)| == BANDS && lists == old(lists)[b := old(lists)[b] + [p]]
    {
      hide Circle, Distinct;
      assert Circle(next, prev, b, lists[b]) && Distinct(lists[b]);
      CircleAdd(next, prev, b, lists[b], p);
      ghost var n, m := next, prev;
      var last := prev[Head(b)];
      prev := prev[Head(b) := Node(p)];
      next := next[Node(p) := Head(b)];
      prev := prev[Node(p) := last];
      next := next[last := Node(p)];
      AddedCircles(n, m, lists, b, p);
      lists := lists[b := lists[b] + [p]];
    }

    /** `list_del` of a queued task. */
    method Delete(p: nat)
      requires Valid() && !OnNone(lists, p)
      modifies this
      ensures Valid() && lists == WithoutAll(old(lists), p)
    {
      hide Circle, Distinct;
      ghost var b: nat :| b < BANDS && p in lists[b];
      assert Circle(next, prev, b, lists[b]) && Distinct(lists[b]);
      CircleDelete(next, prev, b, lists[b], p);
      ghost var n, m := next, prev;
      var after, before := next[Node(p)], prev[Node(p)];
      next := next[before := after];
      prev := prev[after := before];
      next, prev := next - {Node(p)}, prev - {Node(p)};
      DeletedCircles(n, m, lists, b, p);
      lists := WithoutAll(lists, p);
    }
  }

  lemma AddedCircles(next: Links, prev: Links, lists: seq<seq<nat>>, b: nat, p: nat)
    requires Circles(next, prev, lists) && b < BANDS && OnNone(lists, p)
    ensures Head(b) in prev
    ensures Circles(NextAdded(next, prev, b, p), PrevAdded(prev, b, p), lists[b := lists[b] + [p]])
  {
    hide Circle, Distinct, OnNone;
    assert Circle(next, prev, b, lists[b]) && Distinct(lists[b]);
    assert p !in lists[b] by {
      NotOn(lists, p, b);
    }
    CircleAdd(next, prev, b, lists[b], p);
    var next', prev', lists' := NextAdded(next, prev, b, p), PrevAdded(prev, b, p), lists[b := lists[b] + [p]];
    forall c: nat | c < BANDS
      ensures Circle(next', prev', c, lists'[c]) && Distinct(lists'[c])
    {
      if c != b {
        NotOn(lists, p, c);
        OtherCircles(next, prev, next', prev', lists, b, p, c);
      }
    }
    AddedApart(lists, b, p);
  }

  lemma NotOn(lists: seq<seq<nat>>, p: nat, c: nat)
    requires OnNone(lists, p) && c < |lists|
    ensures p !in lists[c]
  {
  }

  lemma AddedApart(lists: seq<seq<nat>>, b: nat, p: nat)
    requires Apart(lists) && b < |lists| && OnNone(lists, p)
    ensures Apart(lists[b := lists[b] + [p]])
  {
    var lists' := lists[b := lists[b] + [p]];
    forall c: nat, r: nat | c < |lists| && r in lists'[c]
      ensures r in lists[c] || (c == b && r == p)
    {
    }
  }

  lemma DeletedCircles(next: Links, prev: Links, lists: seq<seq<nat>>, b: nat, p: nat)
    requires Circles(next, prev, lists) && b < BANDS && p in lists[b]
    ensures Node(p) in next && Node(p) in prev
    ensures Circles(NextDeleted(next, prev, p), PrevDeleted(next, prev, p), WithoutAll(lists, p))
  {
    hide Circle, Distinct, Without;
    assert Circle(next, prev, b, lists[b]) && Distinct(lists[b]);
    CircleDelete(next, prev, b, lists[b], p);
    var next', prev', lists' := NextDeleted(next, prev, p), PrevDeleted(next, prev, p), WithoutAll(lists, p);
    forall c: nat | c < BANDS
      ensures Circle(next', prev', c, lists'[c]) && Distinct(lists'[c]) && forall r | r in lists'[c] :: r in lists[c]
    {
      assert Circle(next, prev, c, lists[c]) && Distinct(lists[c]);
      WithoutFacts(lists[c], p);
      if c != b {
        assert p in lists[c] ==> b == c;
        AbsentStays(lists[c], p);
        OtherCircles(next, prev, next', prev', lists, b, p, c);
      }
    }
  }

  lemma {:induction false} AbsentStays(q: seq<nat>, p: nat)
    requires p !in q
    ensures Without(q, p) == q
  {
    if q != [] {
      AbsentStays(q[1..], p);
    }
  }
}
