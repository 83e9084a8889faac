/** The page bitmap of mm/pmm.c: one bit per page in an array of bytes, a set bit meaning allocated. */
module PageBitmap {

  predicate BitAt(b: bv8, i: bv3) { (b >> i) & 1 == 1 }

  lemma ByteUpdates(b: bv8, i: bv3, j: bv3)
    ensures BitAt(b | (1 << i), j) == (i == j || BitAt(b, j))
    ensures BitAt(b & !(1 << i), j) == (i != j && BitAt(b, j))
  {
  }

  function Index(pfn: nat): bv3 { (pfn % 8) as bv3 }

  lemma SmallIndices(i: nat, j: nat)
    requires i < 8 && j < 8 && i != j
    ensures (i as bv3) != (j as bv3)
  {
  }

  lemma SameBit(p: nat, q: nat)
    requires p / 8 == q / 8 && p != q
    ensures Index(p) != Index(q)
  {
    SmallIndices(p % 8, q % 8);
  }

  predicate BitSet(bytes: seq<bv8>, pfn: nat)
  {
    pfn / 8 >= |bytes| || BitAt(bytes[pfn / 8], Index(pfn))
  }

  /** The pages whose bit reads 0. */
  ghost function ClearPages(bytes: seq<bv8>): (r: set<nat>)
    ensures forall p: nat :: p in r <==> !BitSet(bytes, p)
  {
    set p: nat | p < 8 * |bytes| && !BitSet(bytes, p)
  }

  /** Rewriting one byte changes the addressed page's bit and no other. */
  lemma SetInByte(bytes: seq<bv8>, pfn: nat)
    requires pfn / 8 < |bytes|
    ensures ClearPages(bytes[pfn / 8 := bytes[pfn / 8] | (1 << Index(pfn))]) == ClearPages(bytes) - {pfn}
  {
    hide BitAt, Index;
    var b := bytes[pfn / 8] | (1 << Index(pfn));
    var bytes' := bytes[pfn / 8 := b];
    forall q: nat ensures BitSet(bytes', q) == (q == pfn || BitSet(bytes, q)) {
      if q / 8 == pfn / 8 {
        ByteUpdates(bytes[pfn / 8], Index(pfn), Index(q));
        if q != pfn { SameBit(pfn, q); }
      }
    }
  }

  lemma ClearInByte(bytes: seq<bv8>, pfn: nat)
    requires pfn / 8 < |bytes|
    ensures ClearPages(bytes[pfn / 8 := bytes[pfn / 8] & !(1 << Index(pfn))]) == ClearPages(bytes) + {pfn}
  {
    hide BitAt, Index;
    var b := bytes[pfn / 8] & !(1 << Index(pfn));
    var bytes' := bytes[pfn / 8 := b];
    forall q: nat ensures BitSet(bytes', q) == (q != pfn && BitSet(bytes, q)) {
      if q / 8 == pfn / 8 {
        ByteUpdates(bytes[pfn / 8], Index(pfn), Index(q));
        if q != pfn { SameBit(pfn, q); }
      }
    }
  }

  class Bitmap {
    const bytes: array<bv8>

    ghost function Clear(): set<nat>
      reads bytes
    {
      ClearPages(bytes[..])
    }

    function Covered(): nat { 8 * bytes.Length }

    /** Every bit set, as `pmm_init` leaves it. */
    constructor (size: nat)
      ensures fresh(bytes) && bytes.Length == size && Clear() == {}
    {
      bytes := new bv8[size](_ => 0xFF);
      new;
      forall p: nat | p / 8 < size ensures BitSet(bytes[..], p) {
        AllOnes(Index(p));
      }
    }

    method Set(pfn: nat)
      modifies bytes
      ensures Clear() == old(Clear()) - {pfn}
    {
      if pfn / 8 >= bytes.Length { return; }
      ghost var before := bytes[..];
      bytes[pfn / 8] := bytes[pfn / 8] | (1 << Index(pfn));
      assert bytes[..] == before[pfn / 8 := before[pfn / 8] | (1 << Index(pfn))];
      SetInByte(before, pfn);
    }

    method Unset(pfn: nat)
      modifies bytes
      ensures Clear() == old(Clear()) + (if pfn < Covered() then {pfn} else {})
    {
      if pfn / 8 >= bytes.Length { return; }
      ghost var before := bytes[..];
      bytes[pfn / 8] := bytes[pfn / 8] & !(1 << Index(pfn));
      assert bytes[..] == before[pfn / 8 := before[pfn / 8] & !(1 << Index(pfn))];
      ClearInByte(before, pfn);
    }

    method Test(pfn: nat) returns (used: bool)
      ensures used <==> pfn !in Clear()
    {
      if pfn / 8 >= bytes.Length { return true; }
      used := (bytes[pfn / 8] >> Index(pfn)) & 1 == 1;
    }
  }

  lemma AllOnes(i: bv3)
    ensures BitAt(0xFF, i)
  {
  }
}
