/** GHASH of drivers/cortexcrypto/core/aes256.c: elements are 16-byte arrays, shifted byte by byte. */
module GhashDriver {
  import opened ByteSeq
  import opened Aes
  import opened Gcm
  import Gf8

  // ---------------------------------------------------------------- what the byte operations do to the bits

  lemma XorBit(a: bv8, b: bv8, t: bv3)
    ensures ByteBit(Gf8.Xor(a, b), t) == (ByteBit(a, t) != ByteBit(b, t))
  {
  }

  lemma XorBytesBits(a: State, b: State)
    ensures BitsOf(XorBytes(a, b)) == Plus(BitsOf(a), BitsOf(b))
  {
    hide ByteBit, Gf8.Xor;
    forall i | 0 <= i < 128
      ensures BitsOf(XorBytes(a, b))[i] == Plus(BitsOf(a), BitsOf(b))[i]
    {
      XorBit(a[i / 8], b[i / 8], (7 - i % 8) as bv3);
    }
  }

  /** Byte `j` after the shift: its own bits moved down, the last bit of its neighbour moved in. */
  function ShiftedByte(v: State, j: nat): bv8
    requires j < 16
  {
    MoveDown(v[j], if j == 0 then 0 else v[j - 1])
  }

  function MoveDown(b: bv8, before: bv8): bv8 { (b >> 1) | ((before & 1) << 7) }

  function ShiftBytes(v: State): State
  {
    seq(16, j requires 0 <= j < 16 => ShiftedByte(v, j))
  }

  lemma MovedBit(b: bv8, before: bv8, r: nat)
    requires r < 8
    ensures Bit8(MoveDown(b, before), r) == if r == 0 then Bit8(before, 7) else Bit8(b, r - 1)
  {
  }

  lemma ZeroByte(r: nat)
    requires r < 8
    ensures !Bit8(0, r)
  {
  }

  lemma ShiftedBit(v: State, k: nat, r: nat)
    requires k < 16 && r < 8
    ensures BitsOf(ShiftBytes(v))[8 * k + r] == (8 * k + r > 0 && BitsOf(v)[8 * k + r - 1])
  {
    hide Bit8, MoveDown, BitsOf;
    BitAt(ShiftBytes(v), k, r);
    MovedBit(v[k], if k == 0 then 0 else v[k - 1], r);
    ZeroByte(7);
    if r > 0 {
      BitAt(v, k, r - 1);
    } else if k > 0 {
      BitAt(v, k - 1, 7);
    }
  }

  lemma ShiftBytesBits(v: State)
    ensures BitsOf(ShiftBytes(v)) == Shift(BitsOf(v))
  {
    hide BitsOf, ShiftBytes;
    forall i | 0 <= i < 128
      ensures BitsOf(ShiftBytes(v))[i] == Shift(BitsOf(v))[i]
    {
      ShiftedBit(v, i / 8, i % 8);
    }
  }

  function PolyBytes(): State { [0xE1] + Repeat(0, 15) }

  lemma PolyByte(r: nat)
    requires r < 8
    ensures Bit8(0xE1, r) == (r == 0 || r == 1 || r == 2 || r == 7)
  {
  }

  lemma PolyBitAt(k: nat, r: nat)
    requires k < 16 && r < 8
    ensures BitsOf(PolyBytes())[8 * k + r] == R()[8 * k + r]
  {
    hide Bit8, BitsOf;
    BitAt(PolyBytes(), k, r);
    PolyByte(r);
    ZeroByte(r);
  }

  lemma PolyBits()
    ensures BitsOf(PolyBytes()) == R()
  {
    hide PolyBytes, BitsOf, R;
    forall i | 0 <= i < 128
      ensures BitsOf(PolyBytes())[i] == R()[i]
    {
      PolyBitAt(i / 8, i % 8);
    }
  }

  lemma ZeroBits()
    ensures BitsOf(Repeat(0, 16)) == Zeros(128)
  {
    hide Bit8, BitsOf;
    forall i | 0 <= i < 128
      ensures !BitsOf(Repeat(0, 16))[i]
    {
      BitAt(Repeat(0, 16), i / 8, i % 8);
      ZeroByte(i % 8);
    }
  }

  lemma LastBit(v: State)
    ensures BitsOf(v)[127] <==> v[15] & 1 == 1
  {
    hide BitsOf;
    BitAt(v, 15, 7);
  }

  // ---------------------------------------------------------------- the loops

  /** `z[j] ^= v[j]` for all sixteen bytes. */
  method XorInto(z: array<bv8>, v: array<bv8>)
    requires z.Length == 16 && v.Length == 16 && z != v
    modifies z
    ensures z[..] == XorBytes(old(z[..]), v[..])
  {
    hide Gf8.Xor;
    var j := 0;
    while j < 16
      invariant 0 <= j <= 16
      invariant forall k | 0 <= k < j :: z[k] == Gf8.Xor(old(z[k]), v[k])
      invariant forall k | j <= k < 16 :: z[k] == old(z[k])
    {
      z[j] := Gf8.Xor(z[j], v[j]);
      j := j + 1;
    }
  }

  /** The shift with its running carry. */
  method ShiftIn(v: array<bv8>) returns (carry: bv8)
    requires v.Length == 16
    modifies v
    ensures v[..] == ShiftBytes(old(v[..])) && carry == old(v[15]) & 1
  {
    ghost var was: State := v[..];
    carry := 0;
    var j := 0;
    while j < 16
      invariant 0 <= j <= 16
      invariant carry == if j == 0 then 0 else was[j - 1] & 1
      invariant forall k | 0 <= k < j :: v[k] == ShiftedByte(was, k)
      invariant forall k | j <= k < 16 :: v[k] == was[k]
    {
      var newCarry := v[j] & 1;
      v[j] := (v[j] >> 1) | (carry << 7);
      carry := newCarry;
      j := j + 1;
    }
  }

  /** One turn of the multiplication loop on `v`. */
  method TimesXIn(v: array<bv8>)
    requires v.Length == 16
    modifies v
    ensures BitsOf(v[..]) == TimesX(BitsOf(old(v[..])))
  {
    hide BitsOf, Plus, Shift, R, ShiftBytes;
    ghost var was: State := v[..];
    LastBit(was);
    ShiftBytesBits(was);
    var carry := ShiftIn(v);
    ghost var shifted: State := v[..];
    if carry != 0 {
      PolyBits();
      XorBytesBits(shifted, PolyBytes());
      v[0] := Gf8.Xor(v[0], 0xE1);
      OnlyFirst(shifted);
      assert v[..] == shifted[0 := Gf8.Xor(shifted[0], 0xE1)];
    }
    CarryIs(was[15], carry);
  }

  lemma CarryIs(b: bv8, carry: bv8)
    requires carry == b & 1
    ensures carry != 0 <==> b & 1 == 1
  {
  }

  lemma OnlyFirst(s: State)
    ensures XorBytes(s, PolyBytes()) == s[0 := Gf8.Xor(s[0], 0xE1)]
  {
    Gf8.XorZero(0);
    forall i | 0 < i < 16
      ensures XorBytes(s, PolyBytes())[i] == s[i]
    {
      Gf8.XorZero(s[i]);
    }
  }

  /** `ghash_block`. */
  method GhashBlock(y: array<bv8>, x: State, h: State)
    requires y.Length == 16
    modifies y
    ensures BitsOf(y[..]) == Mul(Plus(BitsOf(old(y[..])), BitsOf(x)), BitsOf(h))
  {
    hide BitsOf, Plus, TimesX, XorBytes, Repeat;
    var tmp := XorBytes(y[..], x);
    XorBytesBits(y[..], x);
    var z := Multiply(tmp, h);
    forall i | 0 <= i < 16 {
      y[i] := z[i];
    }
    assert y[..] == z;
  }

  /** The 128-turn loop of `ghash_block`. */
  method Multiply(tmp: State, h: State) returns (product: State)
    ensures BitsOf(product) == Mul(BitsOf(tmp), BitsOf(h))
  {
    hide BitsOf, Plus, TimesX, XorBytes;
    var z := new bv8[16](i => 0);
    assert z[..] == Repeat(0, 16);
    ZeroBits();
    var v := new bv8[16](i requires 0 <= i < 16 => h[i]);
    assert v[..] == h;
    var i := 0;
    while i < 128
      invariant 0 <= i <= 128 && z != v && fresh(z) && fresh(v)
      invariant MulFrom(BitsOf(tmp), i, BitsOf(z[..]), BitsOf(v[..])) == Mul(BitsOf(tmp), BitsOf(h))
    {
      BitAt(tmp, i / 8, i % 8);
      if Bit8(tmp[i / 8], i % 8) {
        XorBytesBits(z[..], v[..]);
        XorInto(z, v);
      }
      TimesXIn(v);
      i := i + 1;
    }
    product := z[..];
  }

  // ---------------------------------------------------------------- the hash

  const TWO32: nat := 0x1_0000_0000

  /** The position of the block loop after `k` turns of `i += 16` in 32 bits. */
  function Position(k: nat): nat { 16 * k % TWO32 }

  ghost predicate LoopEnds(len: nat) { exists k: nat :: Position(k) >= len }

  /** The block loop leaves its guard exactly for lengths up to 2^32 - 16; above that the position wraps past
      the end. */
  lemma LoopEndsIff(len: nat)
    requires len < TWO32
    ensures LoopEnds(len) <==> len <= TWO32 - 16
  {
    assert Position(0xFFF_FFFF) == TWO32 - 16;
    forall k: nat
      ensures Position(k) <= TWO32 - 16
    {
      WholeBlocks(k);
    }
  }

  lemma WholeBlocks(k: nat)
    ensures 16 * k % TWO32 <= TWO32 - 16
  {
    var q, r := 16 * k / TWO32, 16 * k % TWO32;
    assert r == 16 * (k - 0x1000_0000 * q);
  }

  /** One of the two block loops of `ghash`. */
  method AbsorbInto(y: array<bv8>, h: State, data: Bytes)
    requires y.Length == 16 && |data| <= TWO32 - 16
    modifies y
    ensures BitsOf(y[..]) == Absorb(BitsOf(h), BitsOf(old(y[..])), data)
  {
    hide BitsOf, Plus, Mul, ZeroPadded, Absorb;
    var i := 0;
    assert data[0..] == data;
    ghost var start := BitsOf(y[..]);
    while i < |data|
      invariant 0 <= i && i % 16 == 0 && i < |data| + 16
      invariant Absorb(BitsOf(h), BitsOf(y[..]), data[Min(i, |data|)..]) == Absorb(BitsOf(h), start, data)
    {
      var chunk := Min(16, |data| - i);
      var block := ZeroPadded(data[i..i + chunk]);
      AbsorbNext(BitsOf(h), BitsOf(y[..]), data, i);
      GhashBlock(y, block, h);
      NoWrap(i, |data|);
      i := (i + 16) % TWO32;
    }
    assert data[Min(i, |data|)..] == [];
    AbsorbNone(BitsOf(h), BitsOf(y[..]));
  }

  lemma AbsorbNone(h: Elem, y: Elem)
    ensures Absorb(h, y, []) == y
  {
  }

  /** One block of the rest. */
  lemma AbsorbNext(h: Elem, y: Elem, data: Bytes, i: nat)
    requires i < |data|
    ensures var chunk := Min(16, |data| - i);
            Absorb(h, y, data[i..])
            == Absorb(h, Mul(Plus(y, BitsOf(ZeroPadded(data[i..i + chunk]))), h), data[Min(i + 16, |data|)..])
  {
    hide BitsOf, Plus, Mul, ZeroPadded;
    var chunk, rest := Min(16, |data| - i), data[i..];
    assert rest[..chunk] == data[i..i + chunk] && rest[chunk..] == data[Min(i + 16, |data|)..];
  }

  lemma NoWrap(i: nat, len: nat)
    requires i % 16 == 0 && i < len <= TWO32 - 16
    ensures (i + 16) % TWO32 == i + 16 && (i + 16) % 16 == 0
  {
  }

  function DownByte(w: bv64): bv64 { w >> 8 }

  function LowByte(w: bv64): bv8 { (w & 0xFF) as bv8 }

  lemma MovedByte(w: bv64, k: nat)
    requires k < 7
    ensures Byte64(DownByte(w), k + 1) == Byte64(w, k)
  {
    hide Byte64, DownByte;
    if k == 0 { Moved0(w); } else if k == 1 { Moved1(w); } else if k == 2 { Moved2(w); }
    else if k == 3 { Moved3(w); } else if k == 4 { Moved4(w); } else if k == 5 { Moved5(w); } else { Moved6(w); }
  }

  lemma Moved0(w: bv64)
    ensures Byte64(DownByte(w), 1) == Byte64(w, 0)
  {
  }

  lemma Moved1(w: bv64)
    ensures Byte64(DownByte(w), 2) == Byte64(w, 1)
  {
  }

  lemma Moved2(w: bv64)
    ensures Byte64(DownByte(w), 3) == Byte64(w, 2)
  {
  }

  lemma Moved3(w: bv64)
    ensures Byte64(DownByte(w), 4) == Byte64(w, 3)
  {
  }

  lemma Moved4(w: bv64)
    ensures Byte64(DownByte(w), 5) == Byte64(w, 4)
  {
  }

  lemma Moved5(w: bv64)
    ensures Byte64(DownByte(w), 6) == Byte64(w, 5)
  {
  }

  lemma Moved6(w: bv64)
    ensures Byte64(DownByte(w), 7) == Byte64(w, 6)
  {
  }

  lemma LastByte(w: bv64)
    ensures LowByte(w) == Byte64(w, 7)
  {
  }

  /** What is left of a length after some of its low bytes went out. */
  predicate Remaining(left: bv64, whole: bv64, j: int)
    requires -1 <= j <= 7
  {
    forall k | 0 <= k <= j :: Byte64(left, k + 7 - j) == Byte64(whole, k)
  }

  lemma AllRemaining(w: bv64)
    ensures Remaining(w, w, 7)
  {
    hide Byte64;
  }

  lemma NextRemaining(left: bv64, whole: bv64, j: nat)
    requires j <= 7 && Remaining(left, whole, j)
    ensures LowByte(left) == Byte64(whole, j) && Remaining(DownByte(left), whole, j - 1)
  {
    hide DownByte, LowByte, Byte64;
    LastByte(left);
    forall k | 0 <= k <= j - 1
      ensures Byte64(DownByte(left), k + 7 - (j - 1)) == Byte64(whole, k)
    {
      MovedByte(left, k + 7 - j);
    }
  }

  /** The length block, written from its last byte backwards. */
  method Lengths(aadBits: bv64, textBits: bv64) returns (block: State)
    ensures block == PutBe64(aadBits) + PutBe64(textBits)
  {
    hide DownByte, LowByte, Byte64, PutBe64, Remaining, WrittenAbove;
    var b := new bv8[16];
    var a, t := aadBits, textBits;
    var j := 7;
    AllRemaining(aadBits);
    AllRemaining(textBits);
    NothingWritten(b[..], aadBits, textBits);
    while j >= 0
      invariant -1 <= j <= 7
      invariant Remaining(a, aadBits, j) && Remaining(t, textBits, j)
      invariant WrittenAbove(b[..], aadBits, textBits, j)
    {
      NextRemaining(a, aadBits, j);
      NextRemaining(t, textBits, j);
      WriteNext(b[..], aadBits, textBits, j);
      PutBoth(b, j, LowByte(a), LowByte(t));
      a, t := DownByte(a), DownByte(t);
      j := j - 1;
    }
    block := b[..];
    BlockIs(block, aadBits, textBits);
  }

  method PutBoth(b: array<bv8>, j: nat, x: bv8, y: bv8)
    requires b.Length == 16 && j < 8
    modifies b
    ensures b[..] == old(b[..])[j := x][j + 8 := y]
  {
    b[j] := x;
    b[j + 8] := y;
  }

  /** The bytes of both lengths behind position `j` are in place. */
  predicate WrittenAbove(b: Bytes, v: bv64, w: bv64, j: int)
  {
    |b| == 16 && -1 <= j <= 7 && forall k | j < k < 8 :: b[k] == Byte64(v, k) && b[k + 8] == Byte64(w, k)
  }

  lemma NothingWritten(b: Bytes, v: bv64, w: bv64)
    requires |b| == 16
    ensures WrittenAbove(b, v, w, 7)
  {
  }

  lemma WriteNext(b: Bytes, v: bv64, w: bv64, j: nat)
    requires j <= 7 && WrittenAbove(b, v, w, j)
    ensures WrittenAbove(b[j := Byte64(v, j)][j + 8 := Byte64(w, j)], v, w, j - 1)
  {
    hide Byte64;
  }

  lemma BlockIs(block: State, v: bv64, w: bv64)
    requires WrittenAbove(block, v, w, -1)
    ensures block == PutBe64(v) + PutBe64(w)
  {
    hide Byte64;
    assert block[..8] == PutBe64(v);
    assert block[8..] == PutBe64(w);
    assert block == block[..8] + block[8..];
  }

  /** `ghash`. */
  method Ghash(h: State, aad: Bytes, text: Bytes) returns (out: State)
    requires |aad| <= TWO32 - 16 && |text| <= TWO32 - 16
    ensures out == ToBytes(GHash(BitsOf(h), aad, text))
  {
    hide BitsOf, Plus, Mul, Absorb, ToBytes, PutBe64, BitLength;
    var y := new bv8[16](i => 0);
    assert y[..] == Repeat(0, 16);
    ZeroBits();
    AbsorbInto(y, h, aad);
    AbsorbInto(y, h, text);
    var block := Lengths(BitLength(|aad|), BitLength(|text|));
    GhashBlock(y, block, h);
    out := y[..];
    BytesBack(out);
  }
}
