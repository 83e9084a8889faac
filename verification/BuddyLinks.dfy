/** The doubly linked free lists of mm/pmm.c: links stored in the free pages themselves, zero for NULL. */
module BuddyLinks {
  import opened BuddySpec

  type Links = map<nat, nat>

  ghost predicate Linked(next: Links, prev: Links, s: seq<nat>, k: nat)
    requires k < |s|
  {
    && s[k] != 0 && s[k] in next && s[k] in prev
    && next[s[k]] == (if k + 1 < |s| then s[k + 1] else 0)
    && prev[s[k]] == (if k > 0 then s[k - 1] else 0)
  }

  /** `head`, `next` and `prev` thread exactly the pages of `s`, in order. */
  ghost predicate Chain(head: nat, next: Links, prev: Links, s: seq<nat>)
  {
    && head == (if s == [] then 0 else s[0])
    && forall k: nat | k < |s| :: Linked(next, prev, s, k)
  }

  /** Only the links stored in the list's own pages matter to it. */
  lemma ChainFrame(head: nat, next: Links, prev: Links, next': Links, prev': Links, s: seq<nat>)
    requires Chain(head, next, prev, s)
    requires forall p | p in s && p in next && p in prev ::
               p in next' && p in prev' && next'[p] == next[p] && prev'[p] == prev[p]
    ensures Chain(head, next', prev', s)
  {
    forall k: nat | k < |s| ensures Linked(next', prev', s, k) {
      assert s[k] in s && Linked(next, prev, s, k);
    }
  }

  lemma ChainPush(head: nat, next: Links, prev: Links, s: seq<nat>, p: nat)
    requires Chain(head, next, prev, s) && Distinct(s) && p != 0 && p !in s
    ensures head != 0 ==> head in prev
    ensures Chain(p, next[p := head], if head != 0 then prev[p := 0][head := p] else prev[p := 0], [p] + s)
  {
    var s', next' := [p] + s, next[p := head];
    var prev' := if head != 0 then prev[p := 0][head := p] else prev[p := 0];
    assert s != [] ==> Linked(next, prev, s, 0);
    forall k: nat | k < |s'| ensures Linked(next', prev', s', k) {
      if k > 0 {
        assert s'[k] == s[k - 1] && s[k - 1] in s && Linked(next, prev, s, k - 1);
        assert k > 1 ==> s'[k] != s[0];
      }
    }
  }

  lemma ChainPop(head: nat, next: Links, prev: Links, s: seq<nat>)
    requires Chain(head, next, prev, s) && Distinct(s) && s != []
    ensures head in s && head in next && (next[head] != 0 ==> next[head] in prev && next[head] in s)
    ensures Distinct(s[1..]) && forall q | q in s[1..] :: q in s
    ensures Chain(next[head], next, if next[head] != 0 then prev[next[head] := 0] else prev, s[1..])
  {
    assert Linked(next, prev, s, 0);
    assert |s| > 1 ==> Linked(next, prev, s, 1) && s[1] in s;
    var s', prev' := s[1..], if next[head] != 0 then prev[next[head] := 0] else prev;
    forall k: nat | k < |s'| ensures Linked(next, prev', s', k) {
      assert s'[k] == s[k + 1] && Linked(next, prev, s, k + 1);
      assert k > 0 ==> s'[k] != s[1];
    }
  }

  lemma {:induction false} RemoveFirstAt(s: seq<nat>, k: nat)
    requires k < |s| && Distinct(s)
    ensures s[k] in s && RemoveFirst(s, s[k]) == s[..k] + s[k + 1..]
  {
    if k > 0 {
      assert s[0] != s[k] && s[1..][k - 1] == s[k];
      RemoveFirstAt(s[1..], k - 1);
      assert s[..k] + s[k + 1..] == [s[0]] + (s[1..][..k - 1] + s[1..][k..]);
    }
  }

  /** Unlinking in constant time, from any position, removes exactly that page from the list. */
  lemma ChainRemove(head: nat, next: Links, prev: Links, s: seq<nat>, p: nat)
    requires Chain(head, next, prev, s) && Distinct(s) && p in s
    ensures p in prev && p in next
    ensures prev[p] != 0 ==> prev[p] in next && prev[p] in s && prev[p] != p
    ensures next[p] != 0 ==> next[p] in prev && next[p] in s
    ensures Chain(if prev[p] != 0 then head else next[p],
                  if prev[p] != 0 then next[prev[p] := next[p]] else next,
                  if next[p] != 0 then prev[next[p] := prev[p]] else prev,
                  RemoveFirst(s, p))
  {
    var k: nat :| k < |s| && s[k] == p;
    RemoveFirstAt(s, k);
    var s' := s[..k] + s[k + 1..];
    assert Linked(next, prev, s, k);
    assert k > 0 ==> Linked(next, prev, s, k - 1) && s[k - 1] in s;
    assert k + 1 < |s| ==> Linked(next, prev, s, k + 1) && s[k + 1] in s;
    var next' := if prev[p] != 0 then next[prev[p] := next[p]] else next;
    var prev' := if next[p] != 0 then prev[next[p] := prev[p]] else prev;
    forall i: nat | i < |s'| ensures Linked(next', prev', s', i) {
      if i < k {
        BeforeGap(next, prev, s, k, i);
      } else {
        AfterGap(next, prev, s, k, i);
      }
    }
  }

  ghost function NextAround(next: Links, prev: Links, p: nat): Links
    requires p in next && p in prev
  {
    if prev[p] != 0 then next[prev[p] := next[p]] else next
  }

  ghost function PrevAround(next: Links, prev: Links, p: nat): Links
    requires p in next && p in prev
  {
    if next[p] != 0 then prev[next[p] := prev[p]] else prev
  }

  lemma BeforeGap(next: Links, prev: Links, s: seq<nat>, k: nat, i: nat)
    requires Distinct(s) && i < k < |s| && forall j: nat | j < |s| :: Linked(next, prev, s, j)
    ensures s[k] in next && s[k] in prev
    ensures Linked(NextAround(next, prev, s[k]), PrevAround(next, prev, s[k]), s[..k] + s[k + 1..], i)
  {
    assert Linked(next, prev, s, k) && Linked(next, prev, s, k - 1) && Linked(next, prev, s, i);
    assert k + 1 < |s| ==> Linked(next, prev, s, k + 1);
    var s' := s[..k] + s[k + 1..];
    assert s'[i] == s[i] && (i > 0 ==> s'[i - 1] == s[i - 1]);
    assert i + 1 < |s'| ==> s'[i + 1] == if i + 1 < k then s[i + 1] else s[k + 1];
  }

  lemma AfterGap(next: Links, prev: Links, s: seq<nat>, k: nat, i: nat)
    requires Distinct(s) && k <= i < |s| - 1 && forall j: nat | j < |s| :: Linked(next, prev, s, j)
    ensures s[k] in next && s[k] in prev
    ensures Linked(NextAround(next, prev, s[k]), PrevAround(next, prev, s[k]), s[..k] + s[k + 1..], i)
  {
    assert Linked(next, prev, s, k) && Linked(next, prev, s, k + 1) && Linked(next, prev, s, i + 1);
    assert k > 0 ==> Linked(next, prev, s, k - 1);
    var s' := s[..k] + s[k + 1..];
    assert s'[i] == s[i + 1] && (i + 1 < |s'| ==> s'[i + 1] == s[i + 2]);
    assert i > 0 ==> s'[i - 1] == if i - 1 < k then s[i - 1] else s[i];
  }

  /** One chain per order, no page on two of them. */
  ghost predicate Chains(head: seq<nat>, next: Links, prev: Links, lists: FreeLists)
  {
    && |head| == |lists| == MAX_ORDER + 1
    && (forall o | 0 <= o <= MAX_ORDER :: Chain(head[o], next, prev, lists[o]) && Distinct(lists[o]))
    && (forall o, k, p | 0 <= o <= MAX_ORDER && 0 <= k <= MAX_ORDER && p in lists[o] && p in lists[k] :: o == k)
  }

  /** A change confined to the pages of one list and to pages on no list keeps the other chains. */
  lemma ChainsUpdate(head: seq<nat>, next: Links, prev: Links, lists: FreeLists, o: nat,
                     head': nat, next': Links, prev': Links, s: seq<nat>)
    requires Chains(head, next, prev, lists) && o <= MAX_ORDER
    requires Chain(head', next', prev', s) && Distinct(s)
    requires forall q, k | q in s && 0 <= k <= MAX_ORDER && q in lists[k] :: k == o
    requires forall k, q | 0 <= k <= MAX_ORDER && k != o && q in lists[k] && q in next && q in prev ::
               q in next' && q in prev' && next'[q] == next[q] && prev'[q] == prev[q]
    ensures Chains(head[o := head'], next', prev', lists[o := s])
  {
    forall k | 0 <= k <= MAX_ORDER && k != o ensures Chain(head[k], next', prev', lists[k]) {
      ChainFrame(head[k], next, prev, next', prev', lists[k]);
    }
  }

  class FreeArea {
    var head: seq<nat>
    var next: Links
    var prev: Links
    ghost var lists: FreeLists

    ghost predicate Valid()
      reads this
    {
      Chains(head, next, prev, lists)
    }

    constructor ()
      ensures Valid() && lists == [[], [], [], [], [], [], [], [], [], [], []]
    {
      head := [0, 0, 0, 0, 0, 0, 0, 0, 0, 0, 0];
      next, prev := map[], map[];
      lists := [[], [], [], [], [], [], [], [], [], [], []];
    }

    method Push(o: nat, p: nat)
      requires Valid() && o <= MAX_ORDER && p != 0
      requires forall k | 0 <= k <= MAX_ORDER :: p !in lists[k]
      modifies this
      ensures Valid() && lists == BuddySpec.Push(old(lists), o, p)
    {
      ChainPush(head[o], next, prev, lists[o], p);
      HeadListed(head[o], next, prev, lists[o]);
      next := next[p := head[o]];
      prev := prev[p := 0];
      if head[o] != 0 { prev := prev[head[o] := p]; }
      PushDistinct(lists[o], p);
      ChainsUpdate(head, old(next), old(prev), lists, o, p, next, prev, [p] + lists[o]);
      head := head[o := p];
      lists := BuddySpec.Push(lists, o, p);
    }

    method Pop(o: nat) returns (p: nat)
      requires Valid() && o <= MAX_ORDER
      modifies this
      ensures Valid()
      ensures old(lists)[o] == [] ==> p == 0 && lists == old(lists)
      ensures old(lists)[o] != [] ==> p == old(lists)[o][0] && p != 0 && lists == old(lists)[o := old(lists)[o][1..]]
    {
      p := head[o];
      if p == 0 {
        HeadListed(head[o], next, prev, lists[o]);
        return;
      }
      ChainPop(head[o], next, prev, lists[o]);
      if next[p] != 0 { prev := prev[next[p] := 0]; }
      ChainsUpdate(head, next, old(prev), lists, o, next[p], next, prev, lists[o][1..]);
      head := head[o := next[p]];
      lists := lists[o := lists[o][1..]];
    }

    /** Correct only for a page that is on the list of this order, which every caller must show. */
    method Remove(o: nat, p: nat)
      requires Valid() && o <= MAX_ORDER && p in lists[o]
      modifies this
      ensures Valid() && lists == BuddySpec.Remove(old(lists), o, p)
    {
      ChainRemove(head[o], next, prev, lists[o], p);
      RemoveFirstFacts(lists[o], p);
      if prev[p] != 0 {
        next := next[prev[p] := next[p]];
      } else {
        head := head[o := next[p]];
      }
      if next[p] != 0 { prev := prev[next[p] := prev[p]]; }
      ChainsUpdate(old(head), old(next), old(prev), lists, o, head[o], next, prev, RemoveFirst(lists[o], p));
      assert old(head)[o := head[o]] == head;
      lists := BuddySpec.Remove(lists, o, p);
    }
  }

  lemma HeadListed(head: nat, next: Links, prev: Links, s: seq<nat>)
    requires Chain(head, next, prev, s)
    ensures head == 0 <==> s == []
    ensures head != 0 ==> head in s
  {
    assert s != [] ==> Linked(next, prev, s, 0);
  }

  lemma PushDistinct(s: seq<nat>, p: nat)
    requires Distinct(s) && p !in s
    ensures Distinct([p] + s)
  {
    var s' := [p] + s;
    forall i, j | 0 <= i < j < |s'| ensures s'[i] != s'[j] {
      assert s'[j] == s[j - 1] && s[j - 1] in s;
    }
  }
}
