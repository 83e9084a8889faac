/**
 The slab heap behind `kmalloc` and `kfree` in mm/vmm.c.  Memory is a map from 8-byte-aligned addresses to
 64-bit words.  A page is carved into chunks of an 8-byte header and a payload; the header word holds the
 free-list link while the chunk is free and the cache index while it is live.
 */
module Slab {

  const CACHES: nat := 8
  const PAGE: nat := 4096
  const POISON: nat := 0xDEAD6DEAD6DEAD6D
  const WIPED: nat := 0xDEDEDEDEDEDEDEDE
  const LARGE_COOKIE: nat := 0xFF

  /** Payload bytes of cache `i`: 16, 32, ... 2048. */
  function Size(i: nat): (r: nat)
    ensures r % 8 == 0 && r >= 16
  {
    if i == 0 then 16 else 2 * Size(i - 1)
  }

  /** Header and payload. */
  function Chunk(i: nat): (r: nat)
    ensures r % 8 == 0 && r >= 24
  {
    Size(i) + 8
  }

  type Words = map<nat, nat>

  // ---------------------------------------------------------------- the invariant

  ghost predicate Link(mem: Words, s: seq<nat>, k: nat)
    requires k < |s|
  {
    s[k] in mem && mem[s[k]] == if k + 1 < |s| then s[k + 1] else 0
  }

  /** The free list is threaded through the header words. */
  ghost predicate Threaded(mem: Words, head: nat, s: seq<nat>)
  {
    && head == (if s == [] then 0 else s[0])
    && forall k: nat | k < |s| :: Link(mem, s, k)
  }

  ghost predicate Distinct(s: seq<nat>)
  {
    forall i, j | 0 <= i < j < |s| :: s[i] != s[j]
  }

  /** Chunk bases and the cache each was carved for: aligned, backed by memory, and not overlapping. */
  ghost predicate ChunksOk(mem: Words, chunks: map<nat, nat>)
  {
    && (forall b | b in chunks :: PAGE <= b && b % 8 == 0 && chunks[b] < CACHES)
    && (forall b, a | b in chunks && b <= a < b + Chunk(chunks[b]) && a % 8 == 0 :: a in mem)
    && (forall a, b | a in chunks && b in chunks && a < b :: a + Chunk(chunks[a]) <= b)
  }

  /** Every chunk is on its cache's free list or live, never both; live headers hold the cache index. */
  ghost predicate Partition(mem: Words, chunks: map<nat, nat>, lists: seq<seq<nat>>, live: map<nat, nat>)
    requires |lists| == CACHES
  {
    && (forall i, b | 0 <= i < CACHES && b in lists[i] :: b in chunks && chunks[b] == i && b !in live)
    && (forall b | b in live :: b in chunks && chunks[b] == live[b] && b in mem && mem[b] == live[b])
    && (forall b | b in chunks && b !in live :: chunks[b] < CACHES && b in lists[chunks[b]])
  }

  function LiveIn(live: map<nat, nat>, i: nat): set<nat>
  {
    set b | b in live && live[b] == i
  }

  ghost predicate Counted(allocs: seq<nat>, frees: seq<nat>, live: map<nat, nat>)
  {
    && |allocs| == |frees| == CACHES
    && forall i | 0 <= i < CACHES :: allocs[i] == frees[i] + |LiveIn(live, i)|
  }

  ghost predicate AllThreaded(mem: Words, heads: seq<nat>, lists: seq<seq<nat>>)
    requires |heads| == |lists| == CACHES
  {
    forall i | 0 <= i < CACHES :: Threaded(mem, heads[i], lists[i]) && Distinct(lists[i])
  }

  ghost predicate Inv(mem: Words, heads: seq<nat>, chunks: map<nat, nat>, lists: seq<seq<nat>>, live: map<nat, nat>)
  {
    && |heads| == |lists| == CACHES
    && ChunksOk(mem, chunks)
    && AllThreaded(mem, heads, lists)
    && Partition(mem, chunks, lists, live)
  }

  // ---------------------------------------------------------------- taking a chunk

  lemma PopKeeps(mem: Words, heads: seq<nat>, chunks: map<nat, nat>, lists: seq<seq<nat>>, live: map<nat, nat>, i: nat)
    requires Inv(mem, heads, chunks, lists, live) && i < CACHES && heads[i] != 0
    ensures var h := heads[i];
            && lists[i] != [] && h == lists[i][0] && h in mem && h in chunks && chunks[h] == i && h !in live
            && Inv(mem[h := i], heads[i := mem[h]], chunks, lists[i := lists[i][1..]], live[h := i])
  {
    assert lists[i] != [];
    var h := heads[i];
    assert h in lists[i];
    PopThreaded(mem, h, lists[i], i);
    PopChunks(mem, chunks, h, i);
    PopPartition(mem, chunks, lists, live, h, i);
    hide ChunksOk, Partition;
    var mem' := mem[h := i];
    forall j | 0 <= j < CACHES && j != i ensures Threaded(mem', heads[j], lists[j]) {
      ThreadedElsewhere(mem, mem', heads[j], lists[j]);
    }
  }

  lemma PopChunks(mem: Words, chunks: map<nat, nat>, h: nat, word: nat)
    requires ChunksOk(mem, chunks)
    ensures ChunksOk(mem[h := word], chunks)
  {
    hide Chunk;
  }

  lemma OnOneList(mem: Words, chunks: map<nat, nat>, lists: seq<seq<nat>>, live: map<nat, nat>, h: nat, i: nat, j: nat)
    requires |lists| == CACHES && Partition(mem, chunks, lists, live) && i < CACHES && j < CACHES && h in lists[i]
    ensures h in chunks && chunks[h] == i && (h in lists[j] ==> i == j)
  {
  }

  lemma PopPartition(mem: Words, chunks: map<nat, nat>, lists: seq<seq<nat>>, live: map<nat, nat>, h: nat, i: nat)
    requires |lists| == CACHES && Partition(mem, chunks, lists, live) && i < CACHES && lists[i] != []
             && Distinct(lists[i])
    requires h == lists[i][0]
    ensures h in chunks && chunks[h] == i && h !in live && (forall j | 0 <= j < CACHES && j != i :: h !in lists[j])
    ensures Partition(mem[h := i], chunks, lists[i := lists[i][1..]], live[h := i])
  {
    assert h in lists[i];
    var lists', live' := lists[i := lists[i][1..]], live[h := i];
    forall j | 0 <= j < CACHES && j != i ensures h !in lists[j] {
      OnOneList(mem, chunks, lists, live, h, i, j);
    }
    forall j, b | 0 <= j < CACHES && b in lists'[j] ensures b in lists[j] && b != h {
      if j == i { TailIsRest(lists[i], b); }
    }
    forall b | b in chunks && b !in live' ensures b in lists'[chunks[b]] {
      if chunks[b] == i { HeadOrTail(lists[i], b); }
    }
  }

  lemma TailIsRest(s: seq<nat>, b: nat)
    requires s != [] && Distinct(s) && b in s[1..]
    ensures b in s && b != s[0]
  {
  }

  lemma HeadOrTail(s: seq<nat>, b: nat)
    requires b in s && b != s[0]
    ensures b in s[1..]
  {
    var k :| 0 <= k < |s| && s[k] == b;
    assert s[1..][k - 1] == b;
  }

  lemma PopThreaded(mem: Words, h: nat, s: seq<nat>, word: nat)
    requires s != [] && Threaded(mem, s[0], s) && Distinct(s) && h == s[0]
    ensures h in mem && Threaded(mem[h := word], mem[h], s[1..]) && Distinct(s[1..])
  {
    var t := s[1..];
    assert Link(mem, s, 0);
    var mem' := mem[h := word];
    forall k: nat | k < |t| ensures Link(mem', t, k) {
      assert t[k] == s[k + 1] && Link(mem, s, k + 1);
    }
  }

  /** A free list does not notice writes elsewhere. */
  lemma ThreadedElsewhere(mem: Words, mem': Words, head: nat, s: seq<nat>)
    requires Threaded(mem, head, s)
    requires forall b | b in s && b in mem :: b in mem' && mem'[b] == mem[b]
    ensures Threaded(mem', head, s)
  {
    forall k: nat | k < |s| ensures Link(mem', s, k) {
      assert s[k] in s && Link(mem, s, k);
    }
  }

  // ---------------------------------------------------------------- giving a chunk back

  /** Memory `[base, base + 8 n)` overwritten with one word. */
  function Fill(mem: Words, base: nat, n: nat, word: nat): (r: Words)
    ensures r.Keys >= mem.Keys
    ensures forall a | a in mem && !(base <= a < base + 8 * n) :: r[a] == mem[a]
  {
    if n == 0 then mem else Fill(mem, base, n - 1, word)[base + 8 * (n - 1) := word]
  }

  /** What `kfree` leaves of a chunk: payload wiped, header linking to the old head of the free list. */
  function Returned(mem: Words, base: nat, i: nat, head: nat): Words
  {
    Fill(mem, base, Chunk(i) / 8, WIPED)[base := head]
  }

  lemma PushKeeps(mem: Words, heads: seq<nat>, chunks: map<nat, nat>, lists: seq<seq<nat>>, live: map<nat, nat>, b: nat)
    requires Inv(mem, heads, chunks, lists, live) && b in live
    ensures var i := live[b];
            && i < CACHES
            && Inv(Returned(mem, b, i, heads[i]), heads[i := b], chunks, lists[i := [b] + lists[i]], live - {b})
  {
    assert b in chunks && chunks[b] == live[b] && live[b] < CACHES;
    var i := live[b];
    var mem' := Returned(mem, b, i, heads[i]);
    ReturnedElsewhere(mem, chunks, b, heads[i]);
    ReturnedChunks(mem, mem', chunks);
    PushPartition(mem, mem', chunks, lists, live, b);
    forall j, c | 0 <= j < CACHES && c in lists[j] ensures c in chunks && c != b {
    }
    hide Chunk, Returned, ChunksOk, Partition, AllThreaded;
    PushLists(mem, mem', heads, lists, chunks, b, i);
  }

  lemma PushLists(mem: Words, mem': Words, heads: seq<nat>, lists: seq<seq<nat>>, chunks: map<nat, nat>, b: nat, i: nat)
    requires |heads| == |lists| == CACHES && i < CACHES && b in mem' && mem'[b] == heads[i]
    requires AllThreaded(mem, heads, lists)
    requires forall j, c | 0 <= j < CACHES && c in lists[j] :: c in chunks && c != b
    requires forall c | c in chunks && c != b :: c in mem && c in mem' && mem'[c] == mem[c]
    ensures AllThreaded(mem', heads[i := b], lists[i := [b] + lists[i]])
  {
    hide Threaded, Distinct;
    forall j | 0 <= j < CACHES ensures Threaded(mem', heads[j], lists[j]) {
      ThreadedElsewhere(mem, mem', heads[j], lists[j]);
    }
    assert b in lists[i] ==> b in chunks && b != b;
    PushThreaded(mem', heads[i], lists[i], b);
  }

  /** Returning a chunk touches no other chunk's header. */
  lemma ReturnedElsewhere(mem: Words, chunks: map<nat, nat>, b: nat, head: nat)
    requires ChunksOk(mem, chunks) && b in chunks
    ensures var mem' := Returned(mem, b, chunks[b], head);
            && mem'.Keys >= mem.Keys && b in mem' && mem'[b] == head
            && forall c | c in chunks && c != b :: c in mem && mem'[c] == mem[c]
  {
    hide Chunk, Fill;
    forall c | c in chunks && c != b ensures c in mem && Returned(mem, b, chunks[b], head)[c] == mem[c] {
      ChunkApart(mem, chunks, b, c);
    }
  }

  lemma ReturnedChunks(mem: Words, mem': Words, chunks: map<nat, nat>)
    requires ChunksOk(mem, chunks) && mem'.Keys >= mem.Keys
    ensures ChunksOk(mem', chunks)
  {
    hide Chunk;
  }

  lemma PushPartition(mem: Words, mem': Words, chunks: map<nat, nat>, lists: seq<seq<nat>>, live: map<nat, nat>, b: nat)
    requires |lists| == CACHES && Partition(mem, chunks, lists, live) && b in live && live[b] < CACHES
    requires forall c | c in chunks && c != b && c in mem :: c in mem' && mem'[c] == mem[c]
    ensures Partition(mem', chunks, lists[live[b] := [b] + lists[live[b]]], live - {b})
  {
    var i := live[b];
    var lists' := lists[i := [b] + lists[i]];
    assert forall j, c | 0 <= j < CACHES && c in lists'[j] :: (c == b && j == i) || c in lists[j];
    assert forall j, c | 0 <= j < CACHES && c in lists[j] :: c in lists'[j];
    assert b in lists'[i];
  }

  lemma ChunkApart(mem: Words, chunks: map<nat, nat>, b: nat, c: nat)
    requires ChunksOk(mem, chunks) && b in chunks && c in chunks && c != b
    ensures c in mem && !(b <= c < b + 8 * (Chunk(chunks[b]) / 8))
  {
  }

  lemma PushThreaded(mem: Words, head: nat, s: seq<nat>, b: nat)
    requires Threaded(mem, head, s) && Distinct(s) && b !in s && b in mem && mem[b] == head
    ensures Threaded(mem, b, [b] + s) && Distinct([b] + s)
  {
    var t := [b] + s;
    forall k: nat | k < |t| ensures Link(mem, t, k) {
      if k > 0 { assert t[k] == s[k - 1] && Link(mem, s, k - 1); }
    }
    forall i, j | 0 <= i < j < |t| ensures t[i] != t[j] { assert t[j] == s[j - 1]; }
  }

  // ---------------------------------------------------------------- carving a page

  /** A page of memory that no chunk touches. */
  ghost predicate FreshPage(mem: Words, chunks: map<nat, nat>, page: nat)
  {
    && PAGE <= page && page % PAGE == 0
    && (forall a | page <= a < page + PAGE && a % 8 == 0 :: a in mem)
    && (forall b | b in chunks :: b + Chunk(chunks[b]) <= page || page + PAGE <= b)
  }

  ghost predicate FreshChunk(mem: Words, chunks: map<nat, nat>, b: nat, i: nat)
  {
    && PAGE <= b && b % 8 == 0 && i < CACHES
    && (forall a | b <= a < b + Chunk(i) && a % 8 == 0 :: a in mem)
    && (forall c | c in chunks :: c + Chunk(chunks[c]) <= b || b + Chunk(i) <= c)
  }

  lemma CarveKeeps(mem: Words, heads: seq<nat>, chunks: map<nat, nat>, lists: seq<seq<nat>>, live: map<nat, nat>,
                   b: nat, i: nat)
    requires Inv(mem, heads, chunks, lists, live) && FreshChunk(mem, chunks, b, i)
    ensures b !in chunks && b in mem
    ensures Inv(mem[b := heads[i]], heads[i := b], chunks[b := i], lists[i := [b] + lists[i]], live)
  {
    FreshUnused(mem, chunks, b, i);
    var mem' := mem[b := heads[i]];
    CarveChunks(mem, chunks, b, i, heads[i]);
    CarvePartition(mem, mem', chunks, lists, live, b, i);
    hide Chunk, ChunksOk, AllThreaded;
    forall j, c | 0 <= j < CACHES && c in lists[j] ensures c in chunks && c != b {
    }
    hide Partition;
    InMemory(mem, chunks);
    PushLists(mem, mem', heads, lists, chunks, b, i);
  }

  lemma FreshUnused(mem: Words, chunks: map<nat, nat>, b: nat, i: nat)
    requires ChunksOk(mem, chunks) && FreshChunk(mem, chunks, b, i)
    ensures b !in chunks && b in mem
  {
  }

  lemma InMemory(mem: Words, chunks: map<nat, nat>)
    requires ChunksOk(mem, chunks)
    ensures forall c | c in chunks :: c in mem
  {
  }

  lemma CarveChunks(mem: Words, chunks: map<nat, nat>, b: nat, i: nat, word: nat)
    requires ChunksOk(mem, chunks) && FreshChunk(mem, chunks, b, i)
    ensures ChunksOk(mem[b := word], chunks[b := i])
  {
    hide Chunk;
  }

  lemma CarvePartition(mem: Words, mem': Words, chunks: map<nat, nat>, lists: seq<seq<nat>>, live: map<nat, nat>,
                       b: nat, i: nat)
    requires |lists| == CACHES && Partition(mem, chunks, lists, live) && b !in chunks && i < CACHES
    requires forall c | c in chunks && c in mem :: c in mem' && mem'[c] == mem[c]
    ensures Partition(mem', chunks[b := i], lists[i := [b] + lists[i]], live)
  {
    var lists' := lists[i := [b] + lists[i]];
    assert forall j, c | 0 <= j < CACHES && c in lists'[j] :: (c == b && j == i) || c in lists[j];
    assert forall j, c | 0 <= j < CACHES && c in lists[j] :: c in lists'[j];
    assert b in lists'[i];
  }

  // ---------------------------------------------------------------- counting

  lemma CountAdd(live: map<nat, nat>, b: nat, i: nat, j: nat)
    requires b !in live
    ensures |LiveIn(live[b := i], j)| == |LiveIn(live, j)| + if i == j then 1 else 0
  {
    if i == j {
      assert LiveIn(live[b := i], j) == LiveIn(live, j) + {b};
    } else {
      assert LiveIn(live[b := i], j) == LiveIn(live, j);
    }
  }

  lemma CountDrop(live: map<nat, nat>, b: nat, j: nat)
    requires b in live
    ensures |LiveIn(live - {b}, j)| == |LiveIn(live, j)| - if live[b] == j then 1 else 0
  {
    if live[b] == j {
      assert LiveIn(live - {b}, j) == LiveIn(live, j) - {b};
    } else {
      assert LiveIn(live - {b}, j) == LiveIn(live, j);
    }
  }

  lemma CountedAlloc(allocs: seq<nat>, frees: seq<nat>, live: map<nat, nat>, b: nat, i: nat)
    requires Counted(allocs, frees, live) && i < CACHES && b !in live
    ensures Counted(allocs[i := allocs[i] + 1], frees, live[b := i])
  {
    hide LiveIn;
    forall j | 0 <= j < CACHES ensures allocs[i := allocs[i] + 1][j] == frees[j] + |LiveIn(live[b := i], j)| {
      CountAdd(live, b, i, j);
    }
  }

  lemma CountedFree(allocs: seq<nat>, frees: seq<nat>, live: map<nat, nat>, b: nat)
    requires Counted(allocs, frees, live) && b in live && live[b] < CACHES
    ensures Counted(allocs, frees[live[b] := frees[live[b]] + 1], live - {b})
  {
    hide LiveIn;
    var i := live[b];
    forall j | 0 <= j < CACHES ensures allocs[j] == frees[i := frees[i] + 1][j] + |LiveIn(live - {b}, j)| {
      CountDrop(live, b, j);
    }
  }

  // ---------------------------------------------------------------- the code

  /** What `kfree` makes of the word in front of the pointer. */
  datatype Verdict = Ignored | Freed(cache: nat) | LargeObject | DoubleFree | BadCookie

  function Inspect(cookie: nat): Verdict
  {
    if cookie == POISON then DoubleFree
    else if cookie % 256 == LARGE_COOKIE then LargeObject
    else if cookie >= CACHES then BadCookie
    else Freed(cookie)
  }

  /** The smallest cache whose objects hold `size` bytes. */
  predicate BestCache(size: nat, i: nat)
  {
    size <= Size(i) && forall j: nat | j < i :: Size(j) < size
  }

  /** The base of the `k`-th chunk of a page. */
  function ChunkAt(page: nat, i: nat, k: nat): nat { page + k * Chunk(i) }

  /** The bases of the first `n` chunks of a page. */
  ghost predicate CarvedBelow(page: nat, i: nat, n: nat, b: nat)
  {
    exists k: nat :: k < n && b == ChunkAt(page, i, k)
  }

  /** How many chunks of `c` bytes fit a page. */
  function PerPage(c: nat): (n: nat)
    requires 0 < c <= PAGE
    ensures n >= 1 && n * c <= PAGE < n * c + c
  {
    var q := PAGE / c;
    assert PAGE == q * c + PAGE % c;
    assert q <= 0 ==> q * c <= 0;
    q
  }

  lemma ChunkFits(i: nat)
    requires i < CACHES
    ensures Chunk(i) <= PAGE
  {
    assert Size(1) == 32 && Size(2) == 64 && Size(3) == 128 && Size(4) == 256;
    assert Size(5) == 512 && Size(6) == 1024 && Size(7) == 2048;
  }

  /** The bases of all whole chunks that fit a page. */
  ghost predicate CarvedAt(page: nat, i: nat, b: nat)
    requires Chunk(i) <= PAGE
  {
    CarvedBelow(page, i, PerPage(Chunk(i)), b)
  }

  lemma CarvedNext(page: nat, i: nat, k: nat)
    ensures forall b :: CarvedBelow(page, i, k + 1, b) <==> CarvedBelow(page, i, k, b) || b == ChunkAt(page, i, k)
  {
    hide ChunkAt;
    forall b ensures CarvedBelow(page, i, k + 1, b) <==> CarvedBelow(page, i, k, b) || b == ChunkAt(page, i, k) {
      if CarvedBelow(page, i, k + 1, b) {
        var j: nat :| j < k + 1 && b == ChunkAt(page, i, j);
        assert j < k ==> CarvedBelow(page, i, k, b);
      }
      if CarvedBelow(page, i, k, b) {
        var j: nat :| j < k && b == ChunkAt(page, i, j);
      }
    }
  }

  /** Chunks of one page follow each other without overlap and stay on the page. */
  lemma ChunkSpacing(page: nat, i: nat, j: nat, k: nat)
    requires j < k && Chunk(i) <= PAGE
    ensures ChunkAt(page, i, j) + Chunk(i) <= ChunkAt(page, i, k)
    ensures k <= PerPage(Chunk(i)) ==> ChunkAt(page, i, k) <= page + PAGE
  {
    Spacing(Chunk(i), j, k);
  }

  lemma MulMonotone(a: nat, b: nat, c: nat)
    requires a <= b
    ensures a * c <= b * c
  {
    assert b * c == a * c + (b - a) * c;
  }

  lemma Spacing(c: nat, j: nat, k: nat)
    requires j < k && 0 < c <= PAGE
    ensures j * c + c <= k * c
    ensures k <= PerPage(c) ==> k * c <= PAGE
  {
    hide PerPage;
    assert (j + 1) * c == j * c + c;
    MulMonotone(j + 1, k, c);
    if k <= PerPage(c) { MulMonotone(k, PerPage(c), c); }
  }

  lemma NextChunkFresh(mem: Words, chunks0: map<nat, nat>, chunks: map<nat, nat>, page: nat, i: nat, k: nat)
    requires i < CACHES && Chunk(i) <= PAGE && k < PerPage(Chunk(i)) && PAGE <= page && page % PAGE == 0
    requires forall a | page <= a < page + PAGE && a % 8 == 0 :: a in mem
    requires forall b | b in chunks0 :: b + Chunk(chunks0[b]) <= page || page + PAGE <= b
    requires forall b :: b in chunks <==> b in chunks0 || CarvedBelow(page, i, k, b)
    requires forall b | b in chunks0 :: chunks[b] == chunks0[b]
    requires forall b | b in chunks && b !in chunks0 :: chunks[b] == i
    ensures FreshChunk(mem, chunks, ChunkAt(page, i, k), i)
  {
    var b := ChunkAt(page, i, k);
    AlignedAt(page, i, k);
    assert page <= b;
    ChunkSpacing(page, i, k, k + 1);
    assert b + Chunk(i) <= page + PAGE by { assert ChunkAt(page, i, k + 1) == b + Chunk(i); }
    hide ChunkAt, Chunk, PerPage;
    forall c | c in chunks ensures c + Chunk(chunks[c]) <= b || b + Chunk(i) <= c {
      if c !in chunks0 {
        assert CarvedBelow(page, i, k, c);
        var j: nat :| j < k && c == ChunkAt(page, i, j);
        ChunkSpacing(page, i, j, k);
      }
    }
  }

  lemma AlignedAt(page: nat, i: nat, k: nat)
    requires page % PAGE == 0
    ensures ChunkAt(page, i, k) % 8 == 0
  {
    EightDivides(k, Chunk(i));
    SumOfEights(page, k * Chunk(i));
  }

  lemma SumOfEights(a: nat, b: nat)
    requires a % PAGE == 0 && b % 8 == 0
    ensures (a + b) % 8 == 0
  {
    assert a == 8 * (a / PAGE * 512);
  }

  lemma EightDivides(k: nat, c: nat)
    requires c % 8 == 0
    ensures (k * c) % 8 == 0
  {
    var d := c / 8;
    assert k * c == 8 * (k * d);
  }

  lemma HeapShape(mem: Words, heads: seq<nat>, chunks: map<nat, nat>, lists: seq<seq<nat>>, live: map<nat, nat>)
    requires Inv(mem, heads, chunks, lists, live)
    ensures |heads| == |lists| == CACHES
  {
  }

  /** The link replaces the poison before anyone can see it. */
  lemma Overwrite(mem: Words, b: nat, i: nat, link: nat)
    ensures Fill(mem, b, Chunk(i) / 8, WIPED)[b := POISON][b := link] == Returned(mem, b, i, link)
  {
  }

  lemma CountShape(allocs: seq<nat>, frees: seq<nat>, live: map<nat, nat>)
    requires Counted(allocs, frees, live)
    ensures |allocs| == |frees| == CACHES
  {
  }

  lemma LiveHeader(mem: Words, heads: seq<nat>, chunks: map<nat, nat>, lists: seq<seq<nat>>, live: map<nat, nat>,
                   b: nat)
    requires Inv(mem, heads, chunks, lists, live) && b in live
    ensures b in mem && live[b] < CACHES && Inspect(mem[b]) == Freed(live[b]) && |heads| == |lists| == CACHES
  {
  }

  /** The poisoning `memset`: every word of the chunk. */
  method Wipe(mem: Words, b: nat, i: nat) returns (wiped: Words)
    ensures wiped == Fill(mem, b, Chunk(i) / 8, WIPED)
  {
    wiped := mem;
    var k := 0;
    while k < Chunk(i) / 8
      invariant k <= Chunk(i) / 8 && wiped == Fill(mem, b, k, WIPED)
    {
      wiped := wiped[b + 8 * k := WIPED];
      k := k + 1;
    }
  }

  /** The search loop of `kmalloc`. */
  method FindCache(size: nat) returns (i: nat)
    requires size <= Size(CACHES - 1)
    ensures i < CACHES && BestCache(size, i)
  {
    i := 0;
    while size > Size(i)
      invariant i < CACHES && forall j: nat | j < i :: Size(j) < size
      decreases CACHES - i
    {
      i := i + 1;
    }
  }

  class Heap {
    var mem: Words
    var heads: seq<nat>
    var allocs: seq<nat>
    var frees: seq<nat>
    ghost var chunks: map<nat, nat>
    ghost var lists: seq<seq<nat>>
    ghost var live: map<nat, nat>      // header address of every object callers hold, with its cache

    ghost predicate Valid()
      reads this
    {
      Inv(mem, heads, chunks, lists, live) && Counted(allocs, frees, live)
    }

    constructor (mem: Words)
      ensures Valid() && live == map[] && chunks == map[]
    {
      this.mem := mem;
      heads := [0, 0, 0, 0, 0, 0, 0, 0];
      allocs := [0, 0, 0, 0, 0, 0, 0, 0];
      frees := [0, 0, 0, 0, 0, 0, 0, 0];
      lists := [[], [], [], [], [], [], [], []];
      chunks, live := map[], map[];
      new;
      assert forall i :: LiveIn(live, i) == {};
    }

    /** `slab_grow`: carve a page into chunks, each pushed on the free list. */
    method Grow(i: nat, page: nat)
      requires Valid() && i < CACHES && (page == 0 || FreshPage(mem, chunks, page))
      modifies this
      ensures Chunk(i) <= PAGE
      ensures Valid() && live == old(live) && allocs == old(allocs) && frees == old(frees)
      ensures page == 0 ==> mem == old(mem) && chunks == old(chunks) && heads == old(heads)
      ensures page != 0 ==> heads[i] != 0
      ensures forall b :: b in chunks <==> b in old(chunks) || (page != 0 && CarvedAt(page, i, b))
      ensures forall b | b in old(chunks) :: chunks[b] == old(chunks)[b]
      ensures forall b | b in chunks && b !in old(chunks) :: chunks[b] == i
    {
      hide Chunk, ChunkAt, Inv, Counted;
      ChunkFits(i);
      if page == 0 { return; }
      var n := PerPage(Chunk(i));
      HeapShape(mem, heads, chunks, lists, live);
      var k := 0;
      ghost var chunks0 := chunks;
      while k < n
        invariant k <= n && Inv(mem, heads, chunks, lists, live) && |heads| == |lists| == CACHES
        invariant k > 0 ==> heads[i] != 0
        invariant live == old(live) && allocs == old(allocs) && frees == old(frees)
        invariant forall b :: b in chunks <==> b in chunks0 || CarvedBelow(page, i, k, b)
        invariant forall b | b in chunks0 :: chunks[b] == chunks0[b]
        invariant forall b | b in chunks && b !in chunks0 :: chunks[b] == i
        invariant forall a | page <= a < page + PAGE && a % 8 == 0 :: a in mem
      {
        var b := ChunkAt(page, i, k);
        NextChunkFresh(mem, chunks0, chunks, page, i, k);
        CarveKeeps(mem, heads, chunks, lists, live, b, i);
        mem := mem[b := heads[i]];
        heads := heads[i := b];
        chunks := chunks[b := i];
        lists := lists[i := [b] + lists[i]];
        k := k + 1;
        CarvedNext(page, i, k - 1);
      }
    }

    /** `kmalloc` for sizes a cache serves.  `page` is what `pmm_alloc_page` would return, zero when out of memory. */
    method Kmalloc(size: nat, page: nat) returns (ptr: nat)
      requires Valid() && size <= Size(CACHES - 1) && (page == 0 || FreshPage(mem, chunks, page))
      modifies this
      ensures Valid()
      ensures ptr == 0 ==> page == 0 && live == old(live) && chunks == old(chunks)
      ensures ptr != 0 ==> ptr >= 8 && ptr - 8 !in old(live)
      ensures ptr != 0 ==>
                ptr - 8 in chunks && BestCache(size, chunks[ptr - 8]) && live == old(live)[ptr - 8 := chunks[ptr - 8]]
      ensures forall b | b in old(chunks) :: b in chunks && chunks[b] == old(chunks)[b]
    {
      hide Inv, Counted, Chunk, ChunkAt, CarvedBelow;
      var i := FindCache(size);
      HeapShape(mem, heads, chunks, lists, live);
      if heads[i] == 0 { Grow(i, page); }
      HeapShape(mem, heads, chunks, lists, live);
      if heads[i] == 0 { return 0; }
      var h := heads[i];
      PopKeeps(mem, heads, chunks, lists, live, i);
      CountedAlloc(allocs, frees, live, h, i);
      CountShape(allocs, frees, live);
      heads := heads[i := mem[h]];
      allocs := allocs[i := allocs[i] + 1];
      mem := mem[h := i];
      lists := lists[i := lists[i][1..]];
      live := live[h := i];
      ptr := h + 8;
    }

    /** `kfree` of a pointer callers hold: the object goes back to the cache it came from. */
    method Kfree(ptr: nat) returns (verdict: Verdict)
      requires Valid() && (ptr == 0 || (ptr >= 8 && ptr - 8 in live))
      modifies this
      ensures Valid() && chunks == old(chunks)
      ensures ptr == 0 ==> verdict == Ignored && live == old(live) && mem == old(mem)
      ensures ptr != 0 ==> verdict == Freed(old(live)[ptr - 8]) && live == old(live) - {ptr - 8}
      ensures ptr != 0 ==> verdict.cache < |old(heads)| && ptr - 8 in mem && mem[ptr - 8] == old(heads)[verdict.cache]
    {
      hide Inv, Counted, Chunk, Fill, Inspect;
      if ptr == 0 { return Ignored; }
      var b := ptr - 8;
      LiveHeader(mem, heads, chunks, lists, live, b);
      verdict := Inspect(mem[b]);
      var i := verdict.cache;
      PushKeeps(mem, heads, chunks, lists, live, b);
      CountedFree(allocs, frees, live, b);
      CountShape(allocs, frees, live);
      var wiped := Wipe(mem, b, i);
      wiped := wiped[b := POISON];
      Overwrite(mem, b, i, heads[i]);
      mem, heads, frees := wiped[b := heads[i]], heads[i := b], frees[i := frees[i] + 1];
      lists, live := lists[i := [b] + lists[i]], live - {b};
    }

    /** A caller writes a word of the payload of an object it holds. */
    method Store(b: nat, a: nat, word: nat)
      requires Valid() && b in live && b + 8 <= a < b + Chunk(live[b]) && a % 8 == 0
      modifies this`mem
      ensures Valid() && mem == old(mem)[a := word]
    {
      StoreKeeps(mem, heads, chunks, lists, live, b, a, word);
      mem := mem[a := word];
    }
  }

  /** Writing inside a live payload disturbs no header. */
  lemma StoreKeeps(mem: Words, heads: seq<nat>, chunks: map<nat, nat>, lists: seq<seq<nat>>, live: map<nat, nat>,
                   b: nat, a: nat, word: nat)
    requires Inv(mem, heads, chunks, lists, live) && b in live && b + 8 <= a < b + Chunk(live[b]) && a % 8 == 0
    ensures Inv(mem[a := word], heads, chunks, lists, live)
  {
    hide Chunk;
    forall c | c in chunks ensures c != a {}
    forall i | 0 <= i < CACHES ensures Threaded(mem[a := word], heads[i], lists[i]) {
      ThreadedElsewhere(mem, mem[a := word], heads[i], lists[i]);
    }
  }

  /** Payloads of distinct live objects are disjoint, lie inside their chunks, and hold the cache's size. */
  lemma PayloadsDisjoint(mem: Words, heads: seq<nat>, chunks: map<nat, nat>, lists: seq<seq<nat>>, live: map<nat, nat>,
                         a: nat, b: nat)
    requires Inv(mem, heads, chunks, lists, live) && a in live && b in live && a < b
    ensures a + 8 + Size(live[a]) <= b
  {
    assert a + Chunk(chunks[a]) <= b;
  }

  /** Freeing the same pointer twice in a row: the header the second call inspects is the link the first call
      left, never the poison, so the double-free test never fires.  The call is refused as a bad cookie when
      the cache's free list was not empty, and passes for a valid free of cache 0 when it was. */
  lemma SecondFreeIff(mem: Words, heads: seq<nat>, chunks: map<nat, nat>, lists: seq<seq<nat>>, live: map<nat, nat>,
                      b: nat)
    requires Inv(mem, heads, chunks, lists, live) && b in live
    ensures var i := live[b];
            && i < CACHES
            && var link := Returned(mem, b, i, heads[i])[b];
               && (Inspect(link) == BadCookie <==> lists[i] != [])
               && (Inspect(link) == Freed(0) <==> lists[i] == [])
  {
    var i := live[b];
    if lists[i] != [] {
      var h := lists[i][0];
      assert h in lists[i] && h in chunks;
      AlignedByte(h);
    }
  }

  lemma AlignedByte(a: nat)
    requires a % 8 == 0
    ensures a % 256 != LARGE_COOKIE && a != POISON
  {
    assert a % 256 % 8 == 0;
  }
}
