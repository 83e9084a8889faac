/**
 The four-level page tables of mm/vmm.c on values.  Physical memory is a map from frame numbers to 512
 entry words.  `Walk` is the translation the processor performs (section 4.5 of Intel SDM Volume 3A,
 4-KByte and 2-MByte pages).
 */
module PageTable {

  const PAGE: nat := 4096
  const FRAMES: nat := 0x100_0000_0000        // 2^40 frame numbers fit the address mask of an entry
  const PAGES: nat := 0x10_0000_0000          // 2^36 pages in a 48-bit address space

  function Zeros(n: nat): (t: seq<nat>)
    ensures |t| == n && forall i | 0 <= i < n :: t[i] == 0
  {
    if n == 0 then [] else [0] + Zeros(n - 1)
  }

  type Table = t: seq<nat> | |t| == 512 witness Zeros(512)
  type Memory = map<nat, Table>

  // ---------------------------------------------------------------- entry words

  predicate Present(e: nat) { e % 2 == 1 }
  predicate Large(e: nat) { e / 128 % 2 == 1 }
  function FrameOf(e: nat): nat { e / PAGE % FRAMES }

  /** `pa | PTE_PRESENT | PTE_WRITE` for a page-aligned address. */
  function TableEntry(frame: nat): nat { frame * PAGE + 3 }

  lemma TableEntryFacts(frame: nat)
    requires frame < FRAMES
    ensures Present(TableEntry(frame)) && !Large(TableEntry(frame)) && FrameOf(TableEntry(frame)) == frame
  {
    var e := frame * PAGE + 3;
    assert e / PAGE == frame;
    assert e / 128 == 2 * (frame * 16);
    assert e == 2 * (frame * 2048 + 1) + 1;
  }

  // ---------------------------------------------------------------- the processor's walk

  function I4(v: nat): (i: nat) ensures i < 512 { v / 512 / 512 / 512 % 512 }
  function I3(v: nat): (i: nat) ensures i < 512 { v / 512 / 512 % 512 }
  function I2(v: nat): (i: nat) ensures i < 512 { v / 512 % 512 }
  function I1(v: nat): (i: nat) ensures i < 512 { v % 512 }

  lemma IndicesDetermine(v: nat, w: nat)
    requires v < PAGES && w < PAGES && I4(v) == I4(w) && I3(v) == I3(w) && I2(v) == I2(w) && I1(v) == I1(w)
    ensures v == w
  {
    assert v / 512 / 512 / 512 < 512 && w / 512 / 512 / 512 < 512;
  }

  datatype Option<T> = None | Some(value: T)

  /** The table an entry leads to, if it is present and memory backs it. */
  function Follow(mem: Memory, f: nat, i: nat): Option<nat>
    requires i < 512
  {
    if f in mem && Present(mem[f][i]) then Some(FrameOf(mem[f][i])) else None
  }

  /** The page-directory-pointer table, page directory and page table on the path of page `v`. */
  function T3(mem: Memory, root: nat, v: nat): Option<nat> { Follow(mem, root, I4(v)) }

  function T2(mem: Memory, root: nat, v: nat): Option<nat>
  {
    match T3(mem, root, v) case None => None case Some(f) => Follow(mem, f, I3(v))
  }

  /** The directory entry of page `v` maps a 2-MByte page. */
  predicate LargePath(mem: Memory, root: nat, v: nat)
  {
    match T2(mem, root, v)
    case None => false
    case Some(f) => f in mem && Present(mem[f][I2(v)]) && Large(mem[f][I2(v)])
  }

  function T1(mem: Memory, root: nat, v: nat): Option<nat>
  {
    match T2(mem, root, v) case None => None case Some(f) => Follow(mem, f, I2(v))
  }

  datatype Translation = Unmapped | Page(word: nat) | LargePage(word: nat)

  function Walk(mem: Memory, root: nat, v: nat): Translation
  {
    match T2(mem, root, v)
    case None => Unmapped
    case Some(d) =>
      if d !in mem || !Present(mem[d][I2(v)]) then Unmapped
      else if Large(mem[d][I2(v)]) then LargePage(mem[d][I2(v)])
      else
        var f := FrameOf(mem[d][I2(v)]);
        if f in mem && Present(mem[f][I1(v)]) then Page(mem[f][I1(v)]) else Unmapped
  }

  // ---------------------------------------------------------------- well-formed tables

  /** `level` names the frames that serve as tables: the root at 4, page tables at 1. */
  ghost predicate Backed(mem: Memory, level: map<nat, nat>, root: nat)
  {
    && root in level && level[root] == 4
    && forall f | f in level :: f in mem && 1 <= level[f] <= 4 && (level[f] == 4 ==> f == root)
  }

  predicate Pointer(mem: Memory, level: map<nat, nat>, f: nat, i: nat)
  {
    && f in level && level[f] >= 2 && i < 512 && f in mem && Present(mem[f][i])
    && !(level[f] == 2 && Large(mem[f][i]))
  }

  /** A present entry of an upper table leads to a table one level down. */
  ghost predicate Descends(mem: Memory, level: map<nat, nat>)
  {
    forall f, i: nat | Pointer(mem, level, f, i) ::
      FrameOf(mem[f][i]) in level && level[FrameOf(mem[f][i])] == level[f] - 1
  }

  /** A directory that maps nothing but 2-MByte pages. */
  predicate Solid(mem: Memory, d: nat)
  {
    d in mem && forall i: nat | i < 512 :: Present(mem[d][i]) && Large(mem[d][i])
  }

  /** No two entries lead to the same table, except that a solid directory may be shared. */
  ghost predicate Tree(mem: Memory, level: map<nat, nat>)
  {
    forall f, i: nat, g, j: nat | Pointer(mem, level, f, i) && Pointer(mem, level, g, j)
                                  && FrameOf(mem[f][i]) == FrameOf(mem[g][j]) ::
      (f == g && i == j) || (level[f] == 3 && Solid(mem, FrameOf(mem[f][i])))
  }

  ghost predicate WellFormed(mem: Memory, level: map<nat, nat>, root: nat)
  {
    Backed(mem, level, root) && Descends(mem, level) && Tree(mem, level)
  }

  /** The frames the page allocator will hand out: distinct frames of memory that serve as no table. */
  ghost predicate PoolOk(mem: Memory, level: map<nat, nat>, pool: seq<nat>)
  {
    && (forall k | 0 <= k < |pool| :: pool[k] in mem && pool[k] !in level && pool[k] < FRAMES)
    && (forall j, k | 0 <= j < k < |pool| :: pool[j] != pool[k])
  }

  // ---------------------------------------------------------------- paths stay inside the tables

  lemma PathLevels(mem: Memory, level: map<nat, nat>, root: nat, v: nat)
    requires WellFormed(mem, level, root)
    ensures T3(mem, root, v).Some? ==> T3(mem, root, v).value in level && level[T3(mem, root, v).value] == 3
    ensures T2(mem, root, v).Some? ==> T2(mem, root, v).value in level && level[T2(mem, root, v).value] == 2
    ensures T1(mem, root, v).Some? && !LargePath(mem, root, v)
            ==> T1(mem, root, v).value in level && level[T1(mem, root, v).value] == 1
  {
    hide I4, I3, I2, FrameOf, Large, Present;
    assert T3(mem, root, v).Some? ==> Pointer(mem, level, root, I4(v));
    assert T2(mem, root, v).Some? ==> Pointer(mem, level, T3(mem, root, v).value, I3(v));
    assert T1(mem, root, v).Some? && !LargePath(mem, root, v) ==> Pointer(mem, level, T2(mem, root, v).value, I2(v));
  }

  /** Two pages that share a page table agree on every index above it. */
  lemma SamePath(mem: Memory, level: map<nat, nat>, root: nat, v: nat, w: nat)
    requires WellFormed(mem, level, root)
    requires T1(mem, root, v).Some? && T1(mem, root, v) == T1(mem, root, w)
    requires !LargePath(mem, root, v) && !LargePath(mem, root, w)
    ensures I4(v) == I4(w) && I3(v) == I3(w) && I2(v) == I2(w)
  {
    hide I4, I3, I2, FrameOf, Large, Present;
    PathLevels(mem, level, root, v);
    PathLevels(mem, level, root, w);
    assert Pointer(mem, level, T2(mem, root, v).value, I2(v)) && Pointer(mem, level, T2(mem, root, w).value, I2(w));
    assert Pointer(mem, level, T3(mem, root, v).value, I3(v)) && Pointer(mem, level, T3(mem, root, w).value, I3(w));
    assert Pointer(mem, level, root, I4(v)) && Pointer(mem, level, root, I4(w));
  }

  // ---------------------------------------------------------------- writing a leaf entry

  function Write(mem: Memory, f: nat, i: nat, word: nat): Memory
    requires f in mem && i < 512
  {
    mem[f := mem[f][i := word]]
  }

  /** Writing any frame that is not an upper table leaves every upper-level path as it was. */
  lemma UpperPathsKept(mem: Memory, level: map<nat, nat>, root: nat, f: nat, i: nat, word: nat, v: nat)
    requires WellFormed(mem, level, root) && f in mem && i < 512 && (f in level ==> level[f] == 1)
    ensures var mem' := Write(mem, f, i, word);
            && T3(mem', root, v) == T3(mem, root, v) && T2(mem', root, v) == T2(mem, root, v)
            && T1(mem', root, v) == T1(mem, root, v) && LargePath(mem', root, v) == LargePath(mem, root, v)
  {
    hide I4, I3, I2, FrameOf, Large, Present;
    PathLevels(mem, level, root, v);
  }

  lemma WriteWellFormed(mem: Memory, level: map<nat, nat>, root: nat, f: nat, i: nat, word: nat)
    requires WellFormed(mem, level, root) && f in mem && i < 512 && (f in level ==> level[f] == 1)
    ensures WellFormed(Write(mem, f, i, word), level, root)
  {
    hide I4, I3, I2, FrameOf, Large, Present;
    var mem' := Write(mem, f, i, word);
    assert forall g, j: nat :: Pointer(mem', level, g, j) == Pointer(mem, level, g, j);
  }

  /** Writing the last-level entry of page `v` changes the translation of `v` and of no other page. */
  lemma LeafWrite(mem: Memory, level: map<nat, nat>, root: nat, v: nat, word: nat, u: nat)
    requires WellFormed(mem, level, root) && v < PAGES && u < PAGES
    requires T1(mem, root, v).Some? && !LargePath(mem, root, v)
    ensures T1(mem, root, v).value in mem
    ensures Walk(Write(mem, T1(mem, root, v).value, I1(v), word), root, u)
            == if u == v then (if Present(word) then Page(word) else Unmapped) else Walk(mem, root, u)
  {
    var f := T1(mem, root, v).value;
    PathLevels(mem, level, root, v);
    PathLevels(mem, level, root, u);
    hide I4, I3, I2, I1, FrameOf, Large, Present;
    UpperPathsKept(mem, level, root, f, I1(v), word, u);
    if u != v && T1(mem, root, u) == Some(f) && !LargePath(mem, root, u) && I1(u) == I1(v) {
      SamePath(mem, level, root, v, u);
      IndicesDetermine(v, u);
    }
  }

  // ---------------------------------------------------------------- linking a fresh table

  function LinkTable(mem: Memory, f: nat, i: nat, g: nat): Memory
    requires f in mem && i < 512
  {
    var cleared := mem[g := Zeros(512)];
    cleared[f := cleared[f][i := TableEntry(g)]]
  }

  ghost predicate Linkable(mem: Memory, level: map<nat, nat>, root: nat, f: nat, i: nat, g: nat)
  {
    && WellFormed(mem, level, root)
    && f in level && level[f] >= 2 && i < 512 && !Present(mem[f][i])
    && g in mem && g !in level && g < FRAMES
  }

  lemma LinkPointers(mem: Memory, level: map<nat, nat>, root: nat, f: nat, i: nat, g: nat, h: nat, j: nat)
    requires Linkable(mem, level, root, f, i, g)
    ensures var mem', level' := LinkTable(mem, f, i, g), level[g := level[f] - 1];
            && (h == f && j == i ==> Pointer(mem', level', h, j) && FrameOf(mem'[h][j]) == g)
            && (!(h == f && j == i) ==> Pointer(mem', level', h, j) == Pointer(mem, level, h, j)
                                        && (Pointer(mem, level, h, j) ==> mem'[h][j] == mem[h][j]))
  {
    TableEntryFacts(g);
    assert !Present(0);
    hide FrameOf, Large, TableEntry;
  }

  lemma LinkWellFormed(mem: Memory, level: map<nat, nat>, root: nat, f: nat, i: nat, g: nat)
    requires Linkable(mem, level, root, f, i, g)
    ensures WellFormed(LinkTable(mem, f, i, g), level[g := level[f] - 1], root)
  {
    hide FrameOf, Large, TableEntry, Present, Solid, LinkTable;
    var mem', level' := LinkTable(mem, f, i, g), level[g := level[f] - 1];
    LinkEffect(mem, level, root, f, i, g);
    forall h, j: nat | Pointer(mem', level', h, j)
      ensures FrameOf(mem'[h][j]) in level' && level'[FrameOf(mem'[h][j])] == level'[h] - 1
    {
      LinkPointers(mem, level, root, f, i, g, h, j);
    }
    forall h, j: nat, k, l: nat | Pointer(mem', level', h, j) && Pointer(mem', level', k, l)
                                  && FrameOf(mem'[h][j]) == FrameOf(mem'[k][l])
      ensures (h == k && j == l) || (level'[h] == 3 && Solid(mem', FrameOf(mem'[h][j])))
    {
      LinkTree(mem, level, root, f, i, g, h, j, k, l);
    }
  }

  lemma LinkSolid(mem: Memory, level: map<nat, nat>, root: nat, f: nat, i: nat, g: nat, d: nat)
    requires Linkable(mem, level, root, f, i, g) && d in level && Solid(mem, d)
    ensures Solid(LinkTable(mem, f, i, g), d)
  {
    assert d != f && d != g;
  }

  lemma LinkTree(mem: Memory, level: map<nat, nat>, root: nat, f: nat, i: nat, g: nat, h: nat, j: nat, k: nat, l: nat)
    requires Linkable(mem, level, root, f, i, g)
    requires var mem', level' := LinkTable(mem, f, i, g), level[g := level[f] - 1];
             && Pointer(mem', level', h, j) && Pointer(mem', level', k, l) && FrameOf(mem'[h][j]) == FrameOf(mem'[k][l])
    ensures var mem', level' := LinkTable(mem, f, i, g), level[g := level[f] - 1];
            (h == k && j == l) || (level'[h] == 3 && Solid(mem', FrameOf(mem'[h][j])))
  {
    hide FrameOf, Large, TableEntry, Present, LinkTable, Solid;
    LinkPointers(mem, level, root, f, i, g, h, j);
    LinkPointers(mem, level, root, f, i, g, k, l);
    if !(h == f && j == i) && !(k == f && l == i) && !(h == k && j == l) {
      LinkSolid(mem, level, root, f, i, g, FrameOf(mem[h][j]));
    }
  }

  /** What linking changes in memory: one entry of `f`, and the new table `g`, which is empty. */
  lemma LinkEffect(mem: Memory, level: map<nat, nat>, root: nat, f: nat, i: nat, g: nat)
    requires Linkable(mem, level, root, f, i, g)
    ensures var mem' := LinkTable(mem, f, i, g);
            && f in mem' && mem'[f][i] == TableEntry(g) && FrameOf(mem'[f][i]) == g
            && Present(mem'[f][i]) && !Large(mem'[f][i])
            && (forall j: nat | j < 512 && j != i :: mem'[f][j] == mem[f][j])
            && (forall h | h in level && h != f :: h in mem' && mem'[h] == mem[h])
            && g in mem' && forall j: nat | j < 512 :: !Present(mem'[g][j])
  {
    TableEntryFacts(g);
    assert !Present(0);
  }

  lemma LinkWalkRoot(mem: Memory, level: map<nat, nat>, root: nat, i: nat, g: nat, v: nat)
    requires Linkable(mem, level, root, root, i, g)
    ensures var mem' := LinkTable(mem, root, i, g);
            Walk(mem', root, v) == Walk(mem, root, v) && LargePath(mem', root, v) == LargePath(mem, root, v)
  {
    hide FrameOf, Large, TableEntry, I1, I2, I3, I4, Present, LinkTable;
    LinkEffect(mem, level, root, root, i, g);
    PathLevels(mem, level, root, v);
    var mem' := LinkTable(mem, root, i, g);
    if I4(v) == i {
      assert T2(mem', root, v) == None;
    } else {
      assert T2(mem', root, v) == T2(mem, root, v);
    }
  }

  lemma LinkWalkThird(mem: Memory, level: map<nat, nat>, root: nat, f: nat, i: nat, g: nat, v: nat)
    requires Linkable(mem, level, root, f, i, g) && level[f] == 3
    ensures var mem' := LinkTable(mem, f, i, g);
            Walk(mem', root, v) == Walk(mem, root, v) && LargePath(mem', root, v) == LargePath(mem, root, v)
  {
    hide FrameOf, Large, TableEntry, I1, I2, I3, I4, Present, LinkTable;
    LinkEffect(mem, level, root, f, i, g);
    PathLevels(mem, level, root, v);
    assert T3(LinkTable(mem, f, i, g), root, v) == T3(mem, root, v);
  }

  lemma LinkWalkSecond(mem: Memory, level: map<nat, nat>, root: nat, f: nat, i: nat, g: nat, v: nat)
    requires Linkable(mem, level, root, f, i, g) && level[f] == 2
    ensures var mem' := LinkTable(mem, f, i, g);
            Walk(mem', root, v) == Walk(mem, root, v) && LargePath(mem', root, v) == LargePath(mem, root, v)
  {
    hide FrameOf, Large, TableEntry, I1, I2, I3, I4, Present, LinkTable;
    LinkEffect(mem, level, root, f, i, g);
    PathLevels(mem, level, root, v);
    assert T2(LinkTable(mem, f, i, g), root, v) == T2(mem, root, v);
  }

  /** Linking a zeroed table into an entry that was not present changes no translation. */
  lemma LinkWalk(mem: Memory, level: map<nat, nat>, root: nat, f: nat, i: nat, g: nat, v: nat)
    requires Linkable(mem, level, root, f, i, g)
    ensures var mem' := LinkTable(mem, f, i, g);
            Walk(mem', root, v) == Walk(mem, root, v) && LargePath(mem', root, v) == LargePath(mem, root, v)
  {
    hide Walk, LargePath, LinkTable;
    if level[f] == 4 {
      LinkWalkRoot(mem, level, root, i, g, v);
    } else if level[f] == 3 {
      LinkWalkThird(mem, level, root, f, i, g, v);
    } else {
      LinkWalkSecond(mem, level, root, f, i, g, v);
    }
  }
}
