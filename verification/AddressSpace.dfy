/** `vmm_map` and `vmm_unmap` of mm/vmm.c, writing page tables in place. */
module AddressSpaces {
  import opened PageTable

  const TWO64: nat := 0x1_0000_0000_0000_0000
  const ENOMEM: int := 12

  // ---------------------------------------------------------------- addresses and words

  /** The `i`-th page address of a range, in 64-bit arithmetic. */
  function AddressAt(start: nat, i: nat): nat { (start + i * PAGE) % TWO64 }

  /** The page an address belongs to in a 48-bit space. */
  function PageOf(va: nat): nat { va / PAGE % PAGES }

  lemma DropHighBits(p: nat)
    ensures var v := p % PAGES;
            && v % 512 == p % 512 && v / 512 % 512 == p / 512 % 512
            && v / 512 / 512 % 512 == p / 512 / 512 % 512 && v / 512 / 512 / 512 % 512 == p / 512 / 512 / 512 % 512
  {
    var q, v := p / PAGES, p % PAGES;
    assert p == 512 * (q * 0x800_0000) + v;
    assert p / 512 == 512 * (q * 0x4_0000) + v / 512;
    assert p / 512 / 512 == 512 * (q * 0x200) + v / 512 / 512;
    assert p / 512 / 512 / 512 == 512 * q + v / 512 / 512 / 512;
  }

  /** The four table indices the code takes from an address are those of its page. */
  lemma IndicesOf(va: nat)
    ensures va / 0x80_0000_0000 % 512 == I4(PageOf(va)) && va / 0x4000_0000 % 512 == I3(PageOf(va))
    ensures va / 0x20_0000 % 512 == I2(PageOf(va)) && va / 0x1000 % 512 == I1(PageOf(va))
  {
    DropHighBits(va / PAGE);
    assert va / 0x20_0000 == va / PAGE / 512;
    assert va / 0x4000_0000 == va / PAGE / 512 / 512;
    assert va / 0x80_0000_0000 == va / PAGE / 512 / 512 / 512;
  }

  /** The protection bits `vmm_map` derives from its flags: present, write, user, no-execute. */
  function Prot(flags: nat): nat
  {
    1 + (if flags % 2 == 1 then 2 else 0) + (if flags / 2 % 2 == 1 then 4 else 0)
    + (if flags / 4 % 2 == 0 then 0x8000_0000_0000_0000 else 0)
  }

  /** `(pa & PTE_ADDR_MASK) | prot`; the two operands have no bit in common. */
  function LeafWord(pa: nat, flags: nat): nat { pa / PAGE % FRAMES * PAGE + Prot(flags) }

  /** A mapped word holds the frame of its physical address and the requested rights. */
  lemma LeafWordFacts(pa: nat, flags: nat)
    ensures var w := LeafWord(pa, flags);
            && Present(w) && FrameOf(w) == pa / PAGE % FRAMES
            && (w / 2 % 2 == 1 <==> flags % 2 == 1) && (w / 4 % 2 == 1 <==> flags / 2 % 2 == 1)
            && (w / 0x8000_0000_0000_0000 % 2 == 0 <==> flags / 4 % 2 == 1)
  {
    var f, p := pa / PAGE % FRAMES, Prot(flags);
    var low := if p >= 0x8000_0000_0000_0000 then p - 0x8000_0000_0000_0000 else p;
    assert 1 <= low <= 7;
    LowBits(f, low, p);
  }

  lemma SmallBits(a: nat, low: nat)
    requires low <= 7
    ensures var w := 8 * a + low; w % 2 == low % 2 && w / 2 % 2 == low / 2 % 2 && w / 4 % 2 == low / 4 % 2
  {
    HalfOf(4 * a, low);
    HalfOf(2 * a, low / 2);
    EvenPart(4 * a, low);
    EvenPart(2 * a, low / 2);
    EvenPart(a, low / 4);
    Quarter(8 * a + low);
  }

  lemma HalfOf(a: nat, b: nat)
    ensures (2 * a + b) / 2 == a + b / 2
  {
  }

  lemma EvenPart(a: nat, b: nat)
    ensures (2 * a + b) % 2 == b % 2
  {
  }

  lemma Quarter(w: nat)
    ensures w / 4 == w / 2 / 2
  {
  }

  lemma LowWord(f: nat, low: nat)
    requires f < FRAMES && 1 <= low <= 7 && low % 2 == 1
    ensures var w := f * PAGE + low;
            && w % 2 == 1 && w / PAGE == f && w / 2 % 2 == low / 2 % 2 && w / 4 % 2 == low / 4 % 2
            && w < 0x10_0000_0000_0000
  {
    SmallBits(f * 512, low);
  }

  lemma HighWord(w: nat)
    requires w < 0x10_0000_0000_0000
    ensures var u := w + 0x8000_0000_0000_0000;
            u % 2 == w % 2 && u / 2 % 2 == w / 2 % 2 && u / 4 % 2 == w / 4 % 2 && u / 0x8000_0000_0000_0000 == 1
    ensures (w + 0x8000_0000_0000_0000) / PAGE % FRAMES == w / PAGE
  {
    var u := w + 0x8000_0000_0000_0000;
    assert u / 2 == 2 * 0x2000_0000_0000_0000 + w / 2;
    assert u / 4 == 2 * 0x1000_0000_0000_0000 + w / 4;
    assert u / PAGE == 0x800 * FRAMES + w / PAGE;
  }

  lemma LowBits(f: nat, low: nat, p: nat)
    requires f < FRAMES && 1 <= low <= 7 && low % 2 == 1 && (p == low || p == low + 0x8000_0000_0000_0000)
    ensures var w := f * PAGE + p;
            && w % 2 == 1 && w / PAGE % FRAMES == f && w / 2 % 2 == low / 2 % 2 && w / 4 % 2 == low / 4 % 2
            && w / 0x8000_0000_0000_0000 % 2 == if p == low then 0 else 1
  {
    LowWord(f, low);
    HighWord(f * PAGE + low);
    assert f * PAGE + low + 0x8000_0000_0000_0000 == f * PAGE + (low + 0x8000_0000_0000_0000);
  }

  // ---------------------------------------------------------------- what a range of pages should become

  /** The translation of page `v` after the first `n` pages of a range have been mapped in order. */
  function Overlay(virt: nat, phys: nat, flags: nat, n: nat, before: Translation, v: nat): Translation
  {
    if n == 0 then before
    else if PageOf(AddressAt(virt, n - 1)) == v then Page(LeafWord(AddressAt(phys, n - 1), flags))
    else Overlay(virt, phys, flags, n - 1, before, v)
  }

  /** The pages of a range are consecutive, modulo the 48-bit space. */
  lemma PageAt(virt: nat, i: nat)
    ensures PageOf(AddressAt(virt, i)) == (virt / PAGE + i) % PAGES
  {
    var a := virt + i * PAGE;
    Shifted(virt, i);
    assert a == a / TWO64 * TWO64 + AddressAt(virt, i);
    WholeWords(a / TWO64, AddressAt(virt, i));
    Laps(a / TWO64 * 0x1_0000, AddressAt(virt, i) / PAGE);
  }

  lemma Shifted(a: nat, i: nat)
    ensures (a + i * PAGE) / PAGE == a / PAGE + i
  {
  }

  lemma WholeWords(q: nat, r: nat)
    ensures (q * TWO64 + r) / PAGE == q * 0x1_0000 * PAGES + r / PAGE
  {
    assert q * TWO64 + r == r + (q * 0x1_0000 * PAGES) * PAGE;
    Shifted(r, q * 0x1_0000 * PAGES);
  }

  lemma {:induction false} Laps(k: nat, r: nat)
    ensures (k * PAGES + r) % PAGES == r % PAGES
  {
    if k > 0 {
      Laps(k - 1, r);
      assert k * PAGES + r == (k - 1) * PAGES + r + PAGES;
    }
  }

  /** In a range that does not wrap onto itself, every page gets its own frame and every other page keeps
      the translation it had. */
  lemma {:induction false} OverlayMeaning(virt: nat, phys: nat, flags: nat, n: nat, before: Translation, i: nat)
    requires i < n <= PAGES
    ensures Overlay(virt, phys, flags, n, before, PageOf(AddressAt(virt, i)))
            == Page(LeafWord(AddressAt(phys, i), flags))
  {
    if i < n - 1 {
      PageAt(virt, i);
      PageAt(virt, n - 1);
      DistinctPages(virt / PAGE, i, n - 1);
      OverlayMeaning(virt, phys, flags, n - 1, before, i);
    }
  }

  lemma DistinctPages(p: nat, i: nat, j: nat)
    requires i < j < i + PAGES
    ensures (p + i) % PAGES != (p + j) % PAGES
  {
  }

  lemma {:induction false} OverlayElsewhere(virt: nat, phys: nat, flags: nat, n: nat, before: Translation, v: nat)
    requires forall i: nat | i < n :: PageOf(AddressAt(virt, i)) != v
    ensures Overlay(virt, phys, flags, n, before, v) == before
  {
    if n > 0 { OverlayElsewhere(virt, phys, flags, n - 1, before, v); }
  }

  predicate Hit(virt: nat, n: nat, v: nat)
  {
    n > 0 && (PageOf(AddressAt(virt, n - 1)) == v || Hit(virt, n - 1, v))
  }

  /** The frames `vmm_unmap` returns: those of the pages still mapped when their turn comes. */
  function Released(mem: Memory, root: nat, virt: nat, n: nat): seq<nat>
  {
    if n == 0 then []
    else
      var v := PageOf(AddressAt(virt, n - 1));
      Released(mem, root, virt, n - 1)
      + if Walk(mem, root, v).Page? && !Hit(virt, n - 1, v) then [FrameOf(Walk(mem, root, v).word)] else []
  }

  // ---------------------------------------------------------------- the code

  /** Present entries of tables are never rewritten by linking. */
  ghost predicate Extends(mem: Memory, level: map<nat, nat>, mem': Memory, level': map<nat, nat>)
  {
    && (forall f | f in level :: f in level' && level'[f] == level[f])
    && (forall f, i: nat | f in level && f in mem && i < 512 && Present(mem[f][i]) ::
          f in mem' && mem'[f][i] == mem[f][i])
  }

  lemma ExtendsLevel(mem: Memory, level: map<nat, nat>, mem': Memory, level': map<nat, nat>, f: nat)
    requires Extends(mem, level, mem', level') && f in level
    ensures f in level' && level'[f] == level[f]
  {
  }

  lemma ExtendsFollow(mem: Memory, level: map<nat, nat>, mem': Memory, level': map<nat, nat>, f: nat, i: nat)
    requires Extends(mem, level, mem', level') && f in level && i < 512 && Follow(mem, f, i).Some?
    ensures Follow(mem', f, i) == Follow(mem, f, i)
  {
  }

  ghost predicate SameWalks(mem: Memory, mem': Memory, root: nat)
  {
    forall v: nat :: Walk(mem', root, v) == Walk(mem, root, v) && LargePath(mem', root, v) == LargePath(mem, root, v)
  }

  /** Memory is only added to; new tables and the remaining pool come from the old pool. */
  ghost predicate Grown(mem: Memory, level: map<nat, nat>, pool: seq<nat>,
                        mem': Memory, level': map<nat, nat>, pool': seq<nat>)
  {
    && (forall f | f in mem :: f in mem') && (forall f | f in level' :: f in level || f in pool)
    && (forall f | f in pool' :: f in pool)
  }

  lemma GrownTwice(mem: Memory, level: map<nat, nat>, pool: seq<nat>,
                   mem1: Memory, level1: map<nat, nat>, pool1: seq<nat>,
                   mem2: Memory, level2: map<nat, nat>, pool2: seq<nat>, root: nat)
    requires Grown(mem, level, pool, mem1, level1, pool1) && Grown(mem1, level1, pool1, mem2, level2, pool2)
    requires SameWalks(mem, mem1, root) && SameWalks(mem1, mem2, root)
    ensures Grown(mem, level, pool, mem2, level2, pool2) && SameWalks(mem, mem2, root)
  {
  }

  lemma RootLevel(mem: Memory, level: map<nat, nat>, root: nat)
    requires WellFormed(mem, level, root)
    ensures root in level && level[root] == 4 && root in mem
  {
  }

  /** A 2-MByte entry on the path of page `v` leads to memory that is no table. */
  ghost predicate Backs(mem: Memory, level: map<nat, nat>, root: nat, v: nat)
  {
    var w := Walk(mem, root, v);
    w.LargePage? ==> FrameOf(w.word) in mem && FrameOf(w.word) !in level
  }

  /** The word was stored in the frame the 2-MByte entry of page `v` maps. */
  ghost predicate Stored(mem: Memory, root: nat, v: nat, word: nat, mem': Memory)
  {
    var t := T1(mem, root, v);
    t.Some? && t.value in mem && mem' == Write(mem, t.value, I1(v), word)
  }

  lemma LargeTarget(mem: Memory, root: nat, v: nat)
    ensures LargePath(mem, root, v) <==> Walk(mem, root, v).LargePage?
    ensures LargePath(mem, root, v) ==> T1(mem, root, v) == Some(FrameOf(Walk(mem, root, v).word))
    ensures LargePath(mem, root, v) ==> T3(mem, root, v).Some? && T2(mem, root, v).Some?
  {
  }

  lemma LinkAll(mem: Memory, level: map<nat, nat>, root: nat, f: nat, i: nat, pool: seq<nat>)
    requires WellFormed(mem, level, root) && PoolOk(mem, level, pool) && pool != []
    requires f in level && level[f] >= 2 && i < 512 && !Present(mem[f][i])
    ensures var mem', level' := LinkTable(mem, f, i, pool[0]), level[pool[0] := level[f] - 1];
            && WellFormed(mem', level', root) && PoolOk(mem', level', pool[1..])
            && Extends(mem, level, mem', level') && SameWalks(mem, mem', root)
            && Grown(mem, level, pool, mem', level', pool[1..])
            && f in mem' && Follow(mem', f, i) == Some(pool[0]) && !Large(mem'[f][i])
  {
    hide Walk, LargePath, FrameOf, Large, Present, TableEntry;
    var g := pool[0];
    var mem', level' := LinkTable(mem, f, i, g), level[g := level[f] - 1];
    LinkEffect(mem, level, root, f, i, g);
    LinkWellFormed(mem, level, root, f, i, g);
    hide WellFormed;
    assert PoolOk(mem', level', pool[1..]);
    forall v: nat
      ensures Walk(mem', root, v) == Walk(mem, root, v) && LargePath(mem', root, v) == LargePath(mem, root, v)
    {
      LinkWalk(mem, level, root, f, i, g, v);
    }
  }

  class AddressSpace {
    const root: nat
    var mem: Memory
    var pool: seq<nat>                 // the frames `pmm_alloc_page` will return; exhausted means out of memory
    ghost var level: map<nat, nat>

    ghost predicate Valid()
      reads this
    {
      WellFormed(mem, level, root) && PoolOk(mem, level, pool)
    }

    /** `pt_next_level`; a present 2-MByte entry is followed like any other. */
    method NextLevel(f: nat, i: nat, alloc: bool) returns (t: Option<nat>)
      requires Valid() && f in level && level[f] >= 2 && i < 512
      modifies this
      ensures Valid() && Extends(old(mem), old(level), mem, level) && SameWalks(old(mem), mem, root)
      ensures Grown(old(mem), old(level), old(pool), mem, level, pool)
      ensures t.None? || !alloc || Present(old(mem)[f][i]) ==>
                mem == old(mem) && level == old(level) && pool == old(pool)
      ensures t.Some? ==>
                && f in mem && t == Follow(mem, f, i)
                && ((level[f] == 2 && Large(mem[f][i])) || (t.value in level && level[t.value] == level[f] - 1))
      ensures !alloc ==> t == Follow(mem, f, i)
      ensures Present(old(mem)[f][i]) ==> t.Some?
    {
      hide Walk, LargePath, FrameOf, Large, Present, LinkTable, Tree, PoolOk;
      if Present(mem[f][i]) {
        assert !(level[f] == 2 && Large(mem[f][i])) ==> Pointer(mem, level, f, i);
        return Some(FrameOf(mem[f][i]));
      }
      if !alloc || pool == [] { return None; }
      var g := pool[0];
      LinkAll(mem, level, root, f, i, pool);
      pool := pool[1..];
      mem := LinkTable(mem, f, i, g);
      level := level[g := level[f] - 1];
      return Some(g);
    }

    /** The three descents of `vmm_map` and `vmm_unmap`: the frame that holds the leaf word of the address. */
    method Descend(va: nat, alloc: bool) returns (pt: Option<nat>)
      requires Valid()
      modifies this
      ensures Valid() && SameWalks(old(mem), mem, root) && Grown(old(mem), old(level), old(pool), mem, level, pool)
      ensures pt.Some? || !alloc ==> pt == T1(mem, root, PageOf(va))
      ensures !alloc || LargePath(old(mem), root, PageOf(va)) ==>
                mem == old(mem) && level == old(level) && pool == old(pool)
      ensures LargePath(old(mem), root, PageOf(va)) ==> pt.Some?
    {
      hide I1, I2, I3, I4, Walk, LargePath, Present, Large, FrameOf, PageOf;
      hide WellFormed, PoolOk, Extends, SameWalks, Grown;
      ghost var v := PageOf(va);
      IndicesOf(va);
      LargeTarget(mem, root, v);
      RootLevel(mem, level, root);
      var pdpt := NextLevel(root, va / 0x80_0000_0000 % 512, alloc);
      if pdpt.None? { return None; }
      ExtendsLevel(old(mem), old(level), mem, level, root);
      ghost var mem1, level1, pool1 := mem, level, pool;
      var pd := NextLevel(pdpt.value, va / 0x4000_0000 % 512, alloc);
      GrownTwice(old(mem), old(level), old(pool), mem1, level1, pool1, mem, level, pool, root);
      if pd.None? { return None; }
      ExtendsLevel(mem1, level1, mem, level, root);
      ExtendsLevel(mem1, level1, mem, level, pdpt.value);
      ExtendsFollow(mem1, level1, mem, level, root, I4(v));
      ghost var mem2, level2, pool2 := mem, level, pool;
      pt := NextLevel(pd.value, va / 0x20_0000 % 512, alloc);
      GrownTwice(old(mem), old(level), old(pool), mem2, level2, pool2, mem, level, pool, root);
      if pt.Some? {
        ExtendsFollow(mem2, level2, mem, level, root, I4(v));
        ExtendsFollow(mem2, level2, mem, level, pdpt.value, I3(v));
      }
    }

    /** One iteration of `vmm_map`: descend, linking tables as needed, and store the leaf word.  Under a 2-MByte
        entry the store goes into the memory that entry maps, the call succeeds, and no translation changes. */
    method MapOne(va: nat, word: nat) returns (ok: bool)
      requires Valid() && Present(word) && Backs(mem, level, root, PageOf(va))
      modifies this
      ensures Valid() && Grown(old(mem), old(level), old(pool), mem, level, pool)
      ensures forall u: nat | u < PAGES ::
                Walk(mem, root, u)
                == if ok && u == PageOf(va) && !LargePath(old(mem), root, u) then Page(word)
                   else Walk(old(mem), root, u)
      ensures forall u: nat :: LargePath(mem, root, u) == LargePath(old(mem), root, u)
      ensures LargePath(old(mem), root, PageOf(va)) ==> ok && Stored(old(mem), root, PageOf(va), word, mem)
    {
      hide WellFormed, PoolOk, Walk, LargePath, Present, PageOf, I1, T1, Backs;
      IndicesOf(va);
      PageBound(va);
      var pt := Descend(va, true);
      if pt.None? { return false; }
      BacksLater(old(mem), old(level), mem, level, root, PageOf(va));
      WriteCell(mem, level, pool, root, PageOf(va), word);
      mem := Write(mem, pt.value, va / 0x1000 % 512, word);
      ok := true;
    }

    /** `vmm_map`: on success the pages of the range are mapped, on failure a prefix of them, except those under
        2-MByte entries, which keep their translation; nothing else changes. */
    method Map(virt: nat, phys: nat, pages: nat, flags: nat) returns (rc: int, ghost done: nat)
      requires Valid() && forall i: nat | i < pages :: Apart(mem, level, pool, root, PageOf(AddressAt(virt, i)))
      modifies this
      ensures Valid() && (rc == 0 || rc == -ENOMEM) && (rc == 0 <==> done == pages) && done <= pages
      ensures forall u: nat | u < PAGES ::
                Walk(mem, root, u)
                == if LargePath(old(mem), root, u) then Walk(old(mem), root, u)
                   else Overlay(virt, phys, flags, done, Walk(old(mem), root, u), u)
      ensures forall u: nat :: LargePath(mem, root, u) == LargePath(old(mem), root, u)
    {
      hide WellFormed, PoolOk, Walk, LargePath, PageOf, AddressAt, LeafWord, Grown, Apart, Backs, Stored;
      var i := 0;
      while i < pages
        invariant i <= pages && Valid()
        invariant forall u: nat | u < PAGES ::
                    Walk(mem, root, u)
                    == if LargePath(old(mem), root, u) then Walk(old(mem), root, u)
                       else Overlay(virt, phys, flags, i, Walk(old(mem), root, u), u)
        invariant forall u: nat :: LargePath(mem, root, u) == LargePath(old(mem), root, u)
        invariant forall j: nat | j < pages :: Apart(mem, level, pool, root, PageOf(AddressAt(virt, j)))
      {
        LeafWordFacts(AddressAt(phys, i), flags);
        ApartBacks(mem, level, pool, root, PageOf(AddressAt(virt, i)));
        ghost var mem0, level0, pool0 := mem, level, pool;
        var ok := MapOne(AddressAt(virt, i), LeafWord(AddressAt(phys, i), flags));
        if !ok { return -ENOMEM, i; }
        forall j: nat | j < pages
          ensures Apart(mem, level, pool, root, PageOf(AddressAt(virt, j)))
        {
          PageBound(AddressAt(virt, j));
          StaysApart(mem0, level0, pool0, mem, level, pool, root, PageOf(AddressAt(virt, j)));
        }
        i := i + 1;
      }
      return 0, pages;
    }

    /** One iteration of `vmm_unmap`: the frame the leaf word held, if it was present.  Under a 2-MByte entry the
        word is data of the mapped memory: it is cleared, and the translation stays. */
    method UnmapOne(va: nat) returns (frame: Option<nat>)
      requires Valid() && Backs(mem, level, root, PageOf(va))
      modifies this
      ensures Valid()
      ensures forall u: nat | u < PAGES ::
                Walk(mem, root, u)
                == if u == PageOf(va) && !LargePath(old(mem), root, u) then Unmapped else Walk(old(mem), root, u)
      ensures forall u: nat :: LargePath(mem, root, u) == LargePath(old(mem), root, u)
      ensures !LargePath(old(mem), root, PageOf(va)) ==>
                var w := Walk(old(mem), root, PageOf(va)); frame == if w.Page? then Some(FrameOf(w.word)) else None
      ensures LargePath(old(mem), root, PageOf(va)) ==>
                && Stored(old(mem), root, PageOf(va), 0, mem)
                && frame == Follow(old(mem), T1(old(mem), root, PageOf(va)).value, I1(PageOf(va)))
    {
      hide WellFormed, PoolOk, Walk, LargePath, Present, FrameOf, PageOf, I1, T1, Backs;
      IndicesOf(va);
      PageBound(va);
      ZeroNotPresent();
      LeafWordOf(mem, level, root, PageOf(va));
      var pt := Descend(va, false);
      if pt.None? { return None; }
      WriteCell(mem, level, pool, root, PageOf(va), 0);
      var entry := mem[pt.value][va / 0x1000 % 512];
      frame := if Present(entry) then Some(FrameOf(entry)) else None;
      mem := Write(mem, pt.value, va / 0x1000 % 512, 0);
    }

    /** `vmm_unmap`: exactly the pages of the range lose their translation; with `freePhys` their frames are
        returned. */
    method Unmap(virt: nat, pages: nat, freePhys: bool) returns (freed: seq<nat>)
      requires Valid() && forall i: nat | i < pages :: !LargePath(mem, root, PageOf(AddressAt(virt, i)))
      modifies this
      ensures Valid()
      ensures forall u: nat | u < PAGES ::
                Walk(mem, root, u) == if Hit(virt, pages, u) then Unmapped else Walk(old(mem), root, u)
      ensures freed == if freePhys then Released(old(mem), root, virt, pages) else []
    {
      hide WellFormed, PoolOk, Walk, LargePath, PageOf, AddressAt, FrameOf;
      freed := [];
      var i := 0;
      while i < pages
        invariant i <= pages && Valid()
        invariant forall u: nat | u < PAGES ::
                    Walk(mem, root, u) == if Hit(virt, i, u) then Unmapped else Walk(old(mem), root, u)
        invariant forall u: nat :: LargePath(mem, root, u) == LargePath(old(mem), root, u)
        invariant freed == if freePhys then Released(old(mem), root, virt, i) else []
      {
        assert PageOf(AddressAt(virt, i)) < PAGES by { PageBound(AddressAt(virt, i)); }
        LargeTarget(mem, root, PageOf(AddressAt(virt, i)));
        var frame := UnmapOne(AddressAt(virt, i));
        if freePhys && frame.Some? { freed := freed + [frame.value]; }
        i := i + 1;
      }
    }
  }

  lemma PageBound(va: nat)
    ensures PageOf(va) < PAGES
  {
  }

  lemma ZeroNotPresent()
    ensures !Present(0)
  {
  }

  /** What the leaf word of a page without 2-MByte entry says about its translation. */
  lemma LeafWordOf(mem: Memory, level: map<nat, nat>, root: nat, v: nat)
    requires WellFormed(mem, level, root)
    ensures T1(mem, root, v).None? ==> Walk(mem, root, v) == Unmapped && !LargePath(mem, root, v)
    ensures T1(mem, root, v).Some? && !LargePath(mem, root, v) ==>
              var f := T1(mem, root, v).value;
              f in mem && Walk(mem, root, v) == if Present(mem[f][I1(v)]) then Page(mem[f][I1(v)]) else Unmapped
  {
    PathLevels(mem, level, root, v);
  }

  lemma BacksLater(mem: Memory, level: map<nat, nat>, mem': Memory, level': map<nat, nat>, root: nat, v: nat)
    requires Backs(mem, level, root, v) && SameWalks(mem, mem', root)
    requires LargePath(mem, root, v) ==> mem' == mem && level' == level
    ensures Backs(mem', level', root, v)
  {
    LargeTarget(mem, root, v);
    LargeTarget(mem', root, v);
  }

  /** Storing the leaf word of a page, wherever its path leads. */
  lemma WriteCell(mem: Memory, level: map<nat, nat>, pool: seq<nat>, root: nat, v: nat, word: nat)
    requires WellFormed(mem, level, root) && PoolOk(mem, level, pool) && v < PAGES
    requires T1(mem, root, v).Some? && Backs(mem, level, root, v)
    ensures T1(mem, root, v).value in mem
    ensures var mem' := Write(mem, T1(mem, root, v).value, I1(v), word);
            && WellFormed(mem', level, root) && PoolOk(mem', level, pool)
            && (forall u: nat :: LargePath(mem', root, u) == LargePath(mem, root, u))
            && forall u: nat | u < PAGES ::
                 Walk(mem', root, u)
                 == if u == v && !LargePath(mem, root, u) then (if Present(word) then Page(word) else Unmapped)
                    else Walk(mem, root, u)
  {
    hide WellFormed, PoolOk, Walk, LargePath, Present, I1, T1, Backs;
    if LargePath(mem, root, v) {
      WriteUnder(mem, level, pool, root, v, word);
    } else {
      WriteLeaf(mem, level, pool, root, v, word);
    }
  }

  /** Everything a leaf write keeps and changes. */
  lemma WriteLeaf(mem: Memory, level: map<nat, nat>, pool: seq<nat>, root: nat, v: nat, word: nat)
    requires WellFormed(mem, level, root) && PoolOk(mem, level, pool) && v < PAGES
    requires T1(mem, root, v).Some? && !LargePath(mem, root, v)
    ensures T1(mem, root, v).value in mem
    ensures var mem' := Write(mem, T1(mem, root, v).value, I1(v), word);
            && WellFormed(mem', level, root) && PoolOk(mem', level, pool)
            && (forall u: nat :: LargePath(mem', root, u) == LargePath(mem, root, u))
            && forall u: nat | u < PAGES ::
                 Walk(mem', root, u)
                 == if u == v then (if Present(word) then Page(word) else Unmapped) else Walk(mem, root, u)
  {
    PathLevels(mem, level, root, v);
    var f := T1(mem, root, v).value;
    hide I1, I2, I3, I4, Present, Large, FrameOf, Descends, Tree, T1, T2, T3, Walk, LargePath;
    WriteWellFormed(mem, level, root, f, I1(v), word);
    forall u: nat ensures LargePath(Write(mem, f, I1(v), word), root, u) == LargePath(mem, root, u) {
      UpperPathsKept(mem, level, root, f, I1(v), word, u);
    }
    forall u: nat | u < PAGES
      ensures Walk(Write(mem, f, I1(v), word), root, u)
              == if u == v then (if Present(word) then Page(word) else Unmapped) else Walk(mem, root, u)
    {
      LeafWrite(mem, level, root, v, word, u);
    }
  }

  /** `Backs`, and the memory under the entry is not about to become a table either. */
  ghost predicate Apart(mem: Memory, level: map<nat, nat>, pool: seq<nat>, root: nat, v: nat)
  {
    var w := Walk(mem, root, v);
    w.LargePage? ==> FrameOf(w.word) in mem && FrameOf(w.word) !in level && FrameOf(w.word) !in pool
  }

  lemma ApartBacks(mem: Memory, level: map<nat, nat>, pool: seq<nat>, root: nat, v: nat)
    requires Apart(mem, level, pool, root, v)
    ensures Backs(mem, level, root, v)
  {
  }

  lemma StaysApart(mem: Memory, level: map<nat, nat>, pool: seq<nat>,
                   mem': Memory, level': map<nat, nat>, pool': seq<nat>,
                   root: nat, v: nat)
    requires Apart(mem, level, pool, root, v) && Grown(mem, level, pool, mem', level', pool')
    requires LargePath(mem', root, v) == LargePath(mem, root, v)
    requires LargePath(mem, root, v) ==> Walk(mem', root, v) == Walk(mem, root, v)
    ensures Apart(mem', level', pool', root, v)
  {
    LargeTarget(mem, root, v);
    LargeTarget(mem', root, v);
  }

  /** Under a 2-MByte entry the code writes into the mapped memory instead of a table: no translation changes. */
  lemma LargePathIneffective(mem: Memory, level: map<nat, nat>, root: nat, v: nat, word: nat, u: nat)
    requires WellFormed(mem, level, root) && LargePath(mem, root, v) && Backs(mem, level, root, v)
    ensures T1(mem, root, v).Some? && T1(mem, root, v).value in mem
    ensures var mem' := Write(mem, T1(mem, root, v).value, I1(v), word);
            Walk(mem', root, u) == Walk(mem, root, u) && LargePath(mem', root, u) == LargePath(mem, root, u)
  {
    LargeTarget(mem, root, v);
    var f := T1(mem, root, v).value;
    UpperPathsKept(mem, level, root, f, I1(v), word, u);
    PathLevels(mem, level, root, u);
    hide I1, I2, I3, I4, Present, Large, FrameOf, Descends, Tree;
  }

  lemma WriteUnder(mem: Memory, level: map<nat, nat>, pool: seq<nat>, root: nat, v: nat, word: nat)
    requires WellFormed(mem, level, root) && PoolOk(mem, level, pool) && LargePath(mem, root, v)
             && Backs(mem, level, root, v)
    ensures T1(mem, root, v).Some? && T1(mem, root, v).value in mem
    ensures var mem' := Write(mem, T1(mem, root, v).value, I1(v), word);
            WellFormed(mem', level, root) && PoolOk(mem', level, pool) && SameWalks(mem, mem', root)
  {
    LargeTarget(mem, root, v);
    var f := T1(mem, root, v).value;
    hide I1, Walk, LargePath, Backs, WellFormed;
    assert f !in level by { LargeNoTable(mem, level, root, v); }
    WriteWellFormed(mem, level, root, f, I1(v), word);
    forall u: nat
      ensures var mem' := Write(mem, f, I1(v), word);
              Walk(mem', root, u) == Walk(mem, root, u) && LargePath(mem', root, u) == LargePath(mem, root, u)
    {
      LargePathIneffective(mem, level, root, v, word, u);
    }
  }

  lemma LargeNoTable(mem: Memory, level: map<nat, nat>, root: nat, v: nat)
    requires LargePath(mem, root, v) && Backs(mem, level, root, v)
    ensures T1(mem, root, v).Some? && T1(mem, root, v).value in mem && T1(mem, root, v).value !in level
  {
    LargeTarget(mem, root, v);
  }

  /** After a successful `vmm_map` of a range, page `i` of it has the new translation exactly when no 2-MByte entry
      lay on its path. */
  lemma MapEffectiveIff(mem: Memory, mem': Memory, root: nat, virt: nat, phys: nat, pages: nat, flags: nat, i: nat)
    requires i < pages <= PAGES
    requires forall u: nat | u < PAGES ::
               Walk(mem', root, u)
               == if LargePath(mem, root, u) then Walk(mem, root, u)
                  else Overlay(virt, phys, flags, pages, Walk(mem, root, u), u)
    ensures var v := PageOf(AddressAt(virt, i));
            Walk(mem', root, v) == Page(LeafWord(AddressAt(phys, i), flags)) <==> !LargePath(mem, root, v)
  {
    hide Walk, LargePath, AddressAt, LeafWord, PageOf;
    var v := PageOf(AddressAt(virt, i));
    PageBound(AddressAt(virt, i));
    LargeTarget(mem, root, v);
    OverlayMeaning(virt, phys, flags, pages, Walk(mem, root, v), i);
  }

  // ---------------------------------------------------------------- the kernel's own tables

  const VMALLOC: nat := 0xFFFF_0000_0000_0000
  const VMALLOC_SIZE: nat := 0x80_0000_0000
  const GB: nat := 0x4000_0000

  /** Every address `vmm_alloc` hands out selects slot 0 of the root table, and the page of the low address at the
      same distance from zero; and it is not canonical: bits 63 to 47 are neither all clear nor all set. */
  lemma VmallocPages(k: nat)
    requires k < VMALLOC_SIZE
    ensures PageOf(VMALLOC + k) == PageOf(k) == k / PAGE && I4(PageOf(VMALLOC + k)) == 0
    ensures (VMALLOC + k) / 0x8000_0000_0000 != 0 && (VMALLOC + k) / 0x8000_0000_0000 != 0x1_FFFF
  {
    assert VMALLOC + k == k + (0xFFFF * PAGES) * PAGE;
    Shifted(k, 0xFFFF * PAGES);
    Laps(0xFFFF, k / PAGE);
    assert (VMALLOC + k) / 0x8000_0000_0000 == 0x1_FFFE;
  }

  /** A directory entry as the boot code writes it: 2 MByte, present, writable. */
  function BootEntry(i: nat): nat { i * 0x20_0000 + 0x83 }

  /** The tables the boot code leaves: one solid directory for the first GByte, reached from slot 0 and from the
      last but one GByte of the address space. */
  ghost predicate BootTables(mem: Memory, root: nat, lo: nat, hi: nat, pd: nat)
  {
    && root in mem && lo in mem && hi in mem && pd in mem
    && root < FRAMES && lo < FRAMES && hi < FRAMES && pd < FRAMES
    && root != lo && root != hi && root != pd && lo != hi && lo != pd && hi != pd
    && (forall i: nat | i < 512 ::
          mem[root][i] == if i == 0 then TableEntry(lo) else if i == 511 then TableEntry(hi) else 0)
    && (forall i: nat | i < 512 :: mem[lo][i] == if i == 0 then TableEntry(pd) else 0)
    && (forall i: nat | i < 512 :: mem[hi][i] == if i == 510 then TableEntry(pd) else 0)
    && (forall i: nat | i < 512 :: mem[pd][i] == BootEntry(i))
  }

  function BootLevels(root: nat, lo: nat, hi: nat, pd: nat): map<nat, nat>
  {
    map[pd := 2, hi := 3, lo := 3, root := 4]
  }

  lemma BootEntryFacts(i: nat)
    requires i < 512
    ensures Present(BootEntry(i)) && Large(BootEntry(i)) && FrameOf(BootEntry(i)) == 512 * i
  {
    EvenPart(i * 0x10_0000 + 0x41, 1);
    EvenPart(i * 0x2000, 1);
    assert BootEntry(i) / 128 == 2 * (i * 0x2000) + 1;
    Shifted(0x83, 512 * i);
  }

  lemma BootWellFormed(mem: Memory, root: nat, lo: nat, hi: nat, pd: nat)
    requires BootTables(mem, root, lo, hi, pd)
    ensures WellFormed(mem, BootLevels(root, lo, hi, pd), root)
  {
    TableEntryFacts(lo);
    TableEntryFacts(hi);
    TableEntryFacts(pd);
    ZeroNotPresent();
    hide Present, Large, FrameOf, TableEntry, BootEntry;
    forall i: nat | i < 512 ensures Present(mem[pd][i]) && Large(mem[pd][i]) { BootEntryFacts(i); }
  }

  /** On the boot tables the first GByte of what `vmm_alloc` hands out lies under the identity map. */
  lemma VmallocUnderBoot(mem: Memory, root: nat, lo: nat, hi: nat, pd: nat, k: nat)
    requires BootTables(mem, root, lo, hi, pd) && k < GB
    ensures var v := PageOf(VMALLOC + k);
            LargePath(mem, root, v) && T1(mem, root, v) == Some(512 * (k / 0x20_0000))
  {
    VmallocPages(k);
    var v := PageOf(VMALLOC + k);
    assert I3(v) == 0 && I2(v) == k / 0x20_0000;
    TableEntryFacts(lo);
    TableEntryFacts(pd);
    BootEntryFacts(I2(v));
    hide Present, Large, FrameOf, TableEntry, BootEntry, I1, I2, I3, I4, PageOf;
  }

  /** On the boot tables, mapping pages at the start of the range of `vmm_alloc` changes no translation at all,
      within the first GByte and whether or not the call runs out of memory. */
  lemma VmallocIneffective(mem: Memory, mem': Memory, root: nat, lo: nat, hi: nat, pd: nat, phys: nat, done: nat,
                           flags: nat, u: nat)
    requires BootTables(mem, root, lo, hi, pd) && done * PAGE <= GB && u < PAGES
    requires Walk(mem', root, u)
             == if LargePath(mem, root, u) then Walk(mem, root, u)
                else Overlay(VMALLOC, phys, flags, done, Walk(mem, root, u), u)
    ensures Walk(mem', root, u) == Walk(mem, root, u)
  {
    hide Walk, LargePath, BootTables, PageOf, T1;
    if !LargePath(mem, root, u) {
      forall i: nat | i < done
        ensures PageOf(AddressAt(VMALLOC, i)) != u
      {
        assert AddressAt(VMALLOC, i) == VMALLOC + i * PAGE;
        VmallocUnderBoot(mem, root, lo, hi, pd, i * PAGE);
      }
      OverlayElsewhere(VMALLOC, phys, flags, done, Walk(mem, root, u), u);
    }
  }
}
