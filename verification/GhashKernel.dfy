/** GHASH of crypto/aes_gcm.c: elements are pairs of 64-bit words, updated by a 128-turn loop. */
module GhashKernel {
  import opened ByteSeq
  import opened Aes
  import opened Gcm

  datatype U128 = U128(hi: bv64, lo: bv64)

  /** Bit `i` counted from the top, as `(w >> (63 - i)) & 1`. */
  function Bit64(w: bv64, i: nat): bool
    requires i < 64
  {
    BitFrom(w, Place(i))
  }

  /** The shift amount 63 - i. */
  function Place(i: nat): bv6
    requires i < 64
  {
    if i == 0 then 63 else Place(i - 1) - 1
  }

  function BitFrom(w: bv64, s: bv6): bool { (w >> s) & 1 == 1 }

  function Bits(x: U128): Elem
  {
    seq(128, i requires 0 <= i < 128 => if i < 64 then Bit64(x.hi, i) else Bit64(x.lo, i - 64))
  }

  /** `v.hi >> 1` and `(v.lo >> 1) | (v.hi << 63)`. */
  function HalfHigh(hi: bv64): bv64 { hi >> 1 }
  function HalfLow(hi: bv64, lo: bv64): bv64 { (lo >> 1) | (hi << 63) }

  function Xor64(x: bv64, y: bv64): bv64 { x ^ y }

  // ---------------------------------------------------------------- single bits

  lemma XorFrom(x: bv64, y: bv64, s: bv6)
    ensures BitFrom(x ^ y, s) == (BitFrom(x, s) != BitFrom(y, s))
  {
  }

  lemma HighFrom(hi: bv64, s: bv6)
    ensures BitFrom(HalfHigh(hi), s) == (s != 63 && BitFrom(hi, s + 1))
  {
  }

  lemma LowFrom(hi: bv64, lo: bv64, s: bv6)
    ensures BitFrom(HalfLow(hi, lo), s) == if s == 63 then BitFrom(hi, 0) else BitFrom(lo, s + 1)
  {
  }

  lemma PolyFrom(s: bv6)
    ensures BitFrom(0xe100000000000000, s) == (s == 63 || s == 62 || s == 61 || s == 56) && !BitFrom(0, s)
  {
  }

  lemma {:induction false} PlaceValue(i: nat)
    requires i < 64
    ensures Place(i) as int == 63 - i
  {
    if i > 0 {
      PlaceValue(i - 1);
      OneLess(Place(i - 1));
    }
  }

  lemma OneLess(s: bv6)
    requires s as int > 0
    ensures (s - 1) as int == s as int - 1
  {
  }

  lemma SameShift(s: bv6, t: bv6)
    requires s as int == t as int
    ensures s == t
  {
  }

  lemma PlaceStep(i: nat)
    requires 0 < i < 64
    ensures Place(i) + 1 == Place(i - 1)
  {
  }

  lemma PlaceEnds(i: nat)
    requires i < 64
    ensures Place(0) == 63 && Place(63) == 0 && (Place(i) == 63 <==> i == 0)
  {
    PlaceValue(63);
    SameShift(Place(63), 0);
    PlaceValue(i);
  }

  lemma PlacePoly(i: nat)
    requires i < 64
    ensures (Place(i) == 63 || Place(i) == 62 || Place(i) == 61 || Place(i) == 56)
            == (i == 0 || i == 1 || i == 2 || i == 7)
  {
    hide Place;
    PlaceValue(i);
    if i == 0 || i == 1 || i == 2 || i == 7 {
      SameShift(Place(i), if i == 0 then 63 else if i == 1 then 62 else if i == 2 then 61 else 56);
    }
  }

  // ---------------------------------------------------------------- what the word operations do to the bits

  lemma XorBit(x: bv64, y: bv64, i: nat)
    requires i < 64
    ensures Bit64(Xor64(x, y), i) == (Bit64(x, i) != Bit64(y, i))
  {
    hide BitFrom, Place;
    XorFrom(x, y, Place(i));
  }

  lemma XorBits(x: U128, y: U128)
    ensures Bits(XorWords(x, y)) == Plus(Bits(x), Bits(y))
  {
    hide Bit64, Xor64;
    forall i | 0 <= i < 128
      ensures Bits(XorWords(x, y))[i] == Plus(Bits(x), Bits(y))[i]
    {
      if i < 64 {
        XorBit(x.hi, y.hi, i);
      } else {
        XorBit(x.lo, y.lo, i - 64);
      }
    }
  }

  function XorWords(x: U128, y: U128): U128 { U128(Xor64(x.hi, y.hi), Xor64(x.lo, y.lo)) }

  function ShiftWords(v: U128): U128 { U128(HalfHigh(v.hi), HalfLow(v.hi, v.lo)) }

  lemma ShiftHigh(v: U128, i: nat)
    requires i < 64
    ensures Bit64(ShiftWords(v).hi, i) == (i > 0 && Bit64(v.hi, i - 1))
  {
    hide BitFrom, Place, HalfHigh, HalfLow;
    HighFrom(v.hi, Place(i));
    PlaceEnds(i);
    if i > 0 {
      PlaceStep(i);
    }
  }

  lemma ShiftLow(v: U128, i: nat)
    requires i < 64
    ensures Bit64(ShiftWords(v).lo, i) == if i == 0 then Bit64(v.hi, 63) else Bit64(v.lo, i - 1)
  {
    hide BitFrom, Place, HalfHigh, HalfLow;
    LowFrom(v.hi, v.lo, Place(i));
    PlaceEnds(i);
    if i > 0 {
      PlaceStep(i);
    }
  }

  lemma ShiftBits(v: U128)
    ensures Bits(ShiftWords(v)) == Shift(Bits(v))
  {
    hide Bit64, ShiftWords;
    forall i | 0 <= i < 128
      ensures Bits(ShiftWords(v))[i] == Shift(Bits(v))[i]
    {
      if i < 64 {
        ShiftHigh(v, i);
      } else {
        ShiftLow(v, i - 64);
      }
    }
  }

  lemma PolyBits()
    ensures Bits(U128(0xe100000000000000, 0)) == R()
  {
    hide Bit64;
    forall i | 0 <= i < 128
      ensures Bits(U128(0xe100000000000000, 0))[i] == R()[i]
    {
      if i < 64 {
        PolyBit(i);
      } else {
        PolyBit(i - 64);
      }
    }
  }

  lemma PolyBit(i: nat)
    requires i < 64
    ensures Bit64(0xe100000000000000, i) == (i == 0 || i == 1 || i == 2 || i == 7) && !Bit64(0, i)
  {
    hide BitFrom, Place;
    PlacePoly(i);
    PolyFrom(Place(i));
  }

  lemma ZeroBits()
    ensures Bits(U128(0, 0)) == Zeros(128)
  {
    hide Bit64;
    forall i | 0 <= i < 128
      ensures !Bits(U128(0, 0))[i]
    {
      PolyBit(if i < 64 then i else i - 64);
    }
  }

  lemma LastBit(v: U128)
    ensures Bits(v)[127] <==> v.lo & 1 == 1
  {
    hide Place, BitFrom;
    PlaceEnds(63);
    LowestBit(v.lo);
    assert Bits(v)[127] == Bit64(v.lo, 63);
  }

  lemma LowestBit(w: bv64)
    ensures BitFrom(w, 0) == (w & 1 == 1)
  {
  }

  // ---------------------------------------------------------------- words and bytes

  /** The shift that brings byte `k` down. */
  function Base(k: nat): bv6
    requires k < 8
  {
    if k == 0 then 56 else if k == 1 then 48 else if k == 2 then 40 else if k == 3 then 32
    else if k == 4 then 24 else if k == 5 then 16 else if k == 6 then 8 else 0
  }

  lemma ByteShift(w: bv64, t: bv3)
    ensures ByteBit(((w >> 56) & 0xFF) as bv8, t) == BitFrom(w, 56 + (t as bv6))
    ensures ByteBit(((w >> 48) & 0xFF) as bv8, t) == BitFrom(w, 48 + (t as bv6))
    ensures ByteBit(((w >> 40) & 0xFF) as bv8, t) == BitFrom(w, 40 + (t as bv6))
    ensures ByteBit(((w >> 32) & 0xFF) as bv8, t) == BitFrom(w, 32 + (t as bv6))
    ensures ByteBit(((w >> 24) & 0xFF) as bv8, t) == BitFrom(w, 24 + (t as bv6))
    ensures ByteBit(((w >> 16) & 0xFF) as bv8, t) == BitFrom(w, 16 + (t as bv6))
    ensures ByteBit(((w >> 8) & 0xFF) as bv8, t) == BitFrom(w, 8 + (t as bv6))
    ensures ByteBit((w & 0xFF) as bv8, t) == BitFrom(w, 0 + (t as bv6))
  {
  }

  lemma ByteFrom(w: bv64, k: nat, t: bv3)
    requires k < 8
    ensures ByteBit(Byte64(w, k), t) == BitFrom(w, Base(k) + (t as bv6))
  {
    hide ByteBit, BitFrom;
    ByteShift(w, t);
  }

  lemma BaseValue(k: nat, t: bv3)
    requires k < 8
    ensures (Base(k) + (t as bv6)) as int == 56 - 8 * k + t as int
  {
  }

  lemma BackToInt(r: nat)
    requires r < 8
    ensures ((7 - r) as bv3) as int == 7 - r
  {
  }

  lemma Amount(k: nat, r: nat)
    requires k < 8 && r < 8
    ensures Base(k) + (((7 - r) as bv3) as bv6) == Place(8 * k + r)
  {
    hide Base, Place;
    BaseValue(k, (7 - r) as bv3);
    BackToInt(r);
    PlaceValue(8 * k + r);
    SameShift(Base(k) + (((7 - r) as bv3) as bv6), Place(8 * k + r));
  }

  lemma PutBit(w: bv64, k: nat, r: nat)
    requires k < 8 && r < 8
    ensures Bit8(Byte64(w, k), r) == Bit64(w, 8 * k + r)
  {
    hide BitFrom, Base, Byte64, ByteBit, Place;
    ByteFrom(w, k, (7 - r) as bv3);
    Amount(k, r);
  }

  /** Serialising an element big-endian keeps its bits. */
  lemma PutBits(x: U128)
    ensures BitsOf(PutBe64(x.hi) + PutBe64(x.lo)) == Bits(x)
  {
    hide Bit8, Bit64, Byte64;
    var b := PutBe64(x.hi) + PutBe64(x.lo);
    forall i | 0 <= i < 128
      ensures BitsOf(b)[i] == Bits(x)[i]
    {
      PutBitAt(x, i / 8, i % 8);
    }
  }

  lemma PutBitAt(x: U128, k: nat, r: nat)
    requires k < 16 && r < 8
    ensures Bit8((PutBe64(x.hi) + PutBe64(x.lo))[k], r) == Bits(x)[8 * k + r]
  {
    hide Bit8, Bit64, Byte64;
    if k < 8 {
      PutBit(x.hi, k, r);
    } else {
      PutBit(x.lo, k - 8, r);
    }
  }

  // ---------------------------------------------------------------- the multiplication loop

  /** `gf128_mul`. */
  method Mul128(x: U128, h: U128) returns (z: U128)
    ensures Bits(z) == Mul(Bits(x), Bits(h))
  {
    hide Bits, Plus, Shift, R, Xor64, HalfHigh, HalfLow, Bit64;
    z := U128(0, 0);
    ZeroBits();
    PolyBits();
    var v := h;
    var i := 0;
    while i < 128
      invariant 0 <= i <= 128
      invariant MulFrom(Bits(x), i, Bits(z), Bits(v)) == Mul(Bits(x), Bits(h))
    {
      TestedBit(x, i);
      XorBits(z, v);
      LastBit(v);
      ShiftBits(v);
      XorBits(ShiftWords(v), U128(0xe100000000000000, 0));
      var bit := if i < 64 then Bit64(x.hi, i) else Bit64(x.lo, i - 64);
      if bit {
        z := XorWords(z, v);
      }
      var lsb := v.lo & 1 == 1;
      v := ShiftWords(v);
      if lsb {
        XorLowZero(v.lo);
        v := v.(hi := Xor64(v.hi, 0xe100000000000000));
      }
      i := i + 1;
    }
  }

  lemma TestedBit(x: U128, i: nat)
    requires i < 128
    ensures Bits(x)[i] == if i < 64 then Bit64(x.hi, i) else Bit64(x.lo, i - 64)
  {
    hide Bit64;
  }

  lemma XorLowZero(w: bv64)
    ensures Xor64(w, 0) == w
  {
  }

  // ---------------------------------------------------------------- loading blocks

  /** The word after `n` turns of the loading loop. */
  function Loaded(b: Bytes, n: nat): bv64
    requires n <= |b|
  {
    if n == 0 then 0 else PushByte(Loaded(b, n - 1), b[n - 1])
  }

  function PushByte(w: bv64, b: bv8): bv64 { (w << 8) | (b as bv64) }

  function Joined(a: bv8, b: bv8, c: bv8, d: bv8, e: bv8, f: bv8, g: bv8, h: bv8): bv64
  {
    ((a as bv64) << 56) | ((b as bv64) << 48) | ((c as bv64) << 40) | ((d as bv64) << 32)
    | ((e as bv64) << 24) | ((f as bv64) << 16) | ((g as bv64) << 8) | (h as bv64)
  }

  lemma PushEight(a: bv8, b: bv8, c: bv8, d: bv8, e: bv8, f: bv8, g: bv8, h: bv8)
    ensures PushByte(PushByte(PushByte(PushByte(PushByte(PushByte(PushByte(PushByte(0, a), b), c), d), e), f), g), h)
         == Joined(a, b, c, d, e, f, g, h)
  {
  }

  lemma LoadedIs(b: Bytes)
    requires |b| == 8
    ensures Loaded(b, 8) == Joined(b[0], b[1], b[2], b[3], b[4], b[5], b[6], b[7])
  {
    hide PushByte, Joined;
    PushEight(b[0], b[1], b[2], b[3], b[4], b[5], b[6], b[7]);
    assert Loaded(b, 0) == 0 && Loaded(b, 1) == PushByte(0, b[0]);
    assert Loaded(b, 2) == PushByte(PushByte(0, b[0]), b[1]);
    assert Loaded(b, 3) == PushByte(Loaded(b, 2), b[2]);
    assert Loaded(b, 4) == PushByte(PushByte(Loaded(b, 2), b[2]), b[3]);
    assert Loaded(b, 6) == PushByte(PushByte(Loaded(b, 4), b[4]), b[5]);
  }

  lemma JoinedBytes(a: bv8, b: bv8, c: bv8, d: bv8, e: bv8, f: bv8, g: bv8, h: bv8)
    ensures PutBe64(Joined(a, b, c, d, e, f, g, h)) == [a, b, c, d, e, f, g, h]
  {
  }

  /** `h.hi = (h.hi << 8) | H[i]`, eight times. */
  method LoadWord(b: Bytes) returns (w: bv64)
    requires |b| == 8
    ensures PutBe64(w) == b
  {
    hide PushByte, Joined, PutBe64;
    w := 0;
    var i := 0;
    while i < 8
      invariant 0 <= i <= 8 && w == Loaded(b, i)
    {
      w := PushByte(w, b[i]);
      i := i + 1;
    }
    LoadedIs(b);
    JoinedBytes(b[0], b[1], b[2], b[3], b[4], b[5], b[6], b[7]);
    assert b == [b[0], b[1], b[2], b[3], b[4], b[5], b[6], b[7]];
  }

  /** `(u64)b << (56 - j * 8)`. */
  function Placed(b: bv8, j: nat): bv64
    requires j < 8
  {
    if j == 0 then (b as bv64) << 56 else if j == 1 then (b as bv64) << 48
    else if j == 2 then (b as bv64) << 40 else if j == 3 then (b as bv64) << 32
    else if j == 4 then (b as bv64) << 24 else if j == 5 then (b as bv64) << 16
    else if j == 6 then (b as bv64) << 8 else b as bv64
  }

  /** The word after `n` turns of `X.hi ^= (u64)block[j] << (56 - j * 8)`. */
  function XorTurns(x: bv64, b: Bytes, n: nat): bv64
    requires n <= 8 == |b|
  {
    if n == 0 then x else Xor64(XorTurns(x, b, n - 1), Placed(b[n - 1], n - 1))
  }

  method XorWord(x: bv64, b: Bytes) returns (r: bv64)
    requires |b| == 8
    ensures r == XorTurns(x, b, 8)
  {
    hide Xor64, Placed;
    r := x;
    var j := 0;
    while j < 8
      invariant 0 <= j <= 8 && r == XorTurns(x, b, j)
    {
      r := Xor64(r, Placed(b[j], j));
      j := j + 1;
    }
  }

  lemma {:induction false} TurnsBit(x: bv64, b: Bytes, n: nat, i: nat)
    requires n <= 8 == |b| && i < 64
    ensures Bit64(XorTurns(x, b, n), i) == (Bit64(x, i) != Bit64(XorTurns(0, b, n), i))
  {
    hide Bit64, Xor64, Placed;
    if n == 0 {
      PolyBit(i);
    } else {
      TurnsBit(x, b, n - 1, i);
      XorBit(XorTurns(x, b, n - 1), Placed(b[n - 1], n - 1), i);
      XorBit(XorTurns(0, b, n - 1), Placed(b[n - 1], n - 1), i);
    }
  }

  lemma Disjoint(a: bv8, b: bv8, c: bv8, d: bv8, e: bv8, f: bv8, g: bv8, h: bv8)
    ensures Xor64(Xor64(Xor64(Xor64(Xor64(Xor64(Xor64(Xor64(0, (a as bv64) << 56), (b as bv64) << 48),
            (c as bv64) << 40),
              (d as bv64) << 32), (e as bv64) << 24), (f as bv64) << 16), (g as bv64) << 8), h as bv64)
         == Joined(a, b, c, d, e, f, g, h)
  {
  }

  lemma TurnsJoin(b: Bytes)
    requires |b| == 8
    ensures XorTurns(0, b, 8) == Half(b)
  {
    hide Xor64, Joined;
    assert XorTurns(0, b, 0) == 0;
    assert XorTurns(0, b, 1) == Xor64(0, Placed(b[0], 0));
    assert XorTurns(0, b, 2) == Xor64(XorTurns(0, b, 1), Placed(b[1], 1));
    assert XorTurns(0, b, 3) == Xor64(XorTurns(0, b, 2), Placed(b[2], 2));
    assert XorTurns(0, b, 4) == Xor64(XorTurns(0, b, 3), Placed(b[3], 3));
    assert XorTurns(0, b, 5) == Xor64(XorTurns(0, b, 4), Placed(b[4], 4));
    assert XorTurns(0, b, 6) == Xor64(XorTurns(0, b, 5), Placed(b[5], 5));
    assert XorTurns(0, b, 7) == Xor64(XorTurns(0, b, 6), Placed(b[6], 6));
    Disjoint(b[0], b[1], b[2], b[3], b[4], b[5], b[6], b[7]);
  }

  /** XORing a block into the two words adds its bits. */
  lemma BlockBits(x: U128, block: State)
    ensures Bits(U128(XorTurns(x.hi, block[..8], 8), XorTurns(x.lo, block[8..], 8))) == Plus(Bits(x), BitsOf(block))
  {
    hide BitsOf, Bit64, XorTurns, PutBe64, Joined;
    var b := U128(Half(block[..8]), Half(block[8..]));
    HalfBack(block[..8]);
    HalfBack(block[8..]);
    PutBits(b);
    assert block == block[..8] + block[8..];
    TurnsJoin(block[..8]);
    TurnsJoin(block[8..]);
    var y := U128(XorTurns(x.hi, block[..8], 8), XorTurns(x.lo, block[8..], 8));
    forall i | 0 <= i < 128
      ensures Bits(y)[i] == Plus(Bits(x), Bits(b))[i]
    {
      if i < 64 {
        TurnsBit(x.hi, block[..8], 8, i);
      } else {
        TurnsBit(x.lo, block[8..], 8, i - 64);
      }
    }
  }

  function Half(b: Bytes): bv64
    requires |b| == 8
  {
    Joined(b[0], b[1], b[2], b[3], b[4], b[5], b[6], b[7])
  }

  lemma HalfBack(b: Bytes)
    requires |b| == 8
    ensures PutBe64(Half(b)) == b
  {
    hide Joined, PutBe64;
    JoinedBytes(b[0], b[1], b[2], b[3], b[4], b[5], b[6], b[7]);
    assert b == [b[0], b[1], b[2], b[3], b[4], b[5], b[6], b[7]];
  }

  // ---------------------------------------------------------------- the hash

  /** One of the two block loops of `ghash`. */
  method AbsorbInto(h: U128, y: U128, data: Bytes) returns (x: U128)
    ensures Bits(x) == Absorb(Bits(h), Bits(y), data)
  {
    hide Bits, Plus, Mul, BitsOf, XorTurns, ZeroPadded;
    x := y;
    var n := (|data| + 15) / 16;
    var i := 0;
    assert data[0..] == data;
    while i < n
      invariant 0 <= i <= n
      invariant Absorb(Bits(h), Bits(x), data[Min(16 * i, |data|)..]) == Absorb(Bits(h), Bits(y), data)
    {
      var copy := Min(16, |data| - i * 16);
      var block := ZeroPadded(data[16 * i..16 * i + copy]);
      BlockBits(x, block);
      ghost var rest := data[16 * i..];
      assert rest[..copy] == data[16 * i..16 * i + copy] && rest[copy..] == data[Min(16 * (i + 1), |data|)..];
      var hi := XorWord(x.hi, block[..8]);
      var lo := XorWord(x.lo, block[8..]);
      x := Mul128(U128(hi, lo), h);
      i := i + 1;
    }
    assert data[Min(16 * i, |data|)..] == [];
  }

  /** `ghash`. */
  method Ghash(hash: State, aad: Bytes, text: Bytes) returns (out: State)
    ensures out == ToBytes(GHash(BitsOf(hash), aad, text))
  {
    hide Bits, Plus, Mul, Absorb, BitsOf, ToBytes, PutBe64, BitLength, Xor64;
    var hi := LoadWord(hash[..8]);
    var lo := LoadWord(hash[8..]);
    var h := U128(hi, lo);
    PutBits(h);
    assert hash == hash[..8] + hash[8..];
    ZeroBits();
    var x := AbsorbInto(h, U128(0, 0), aad);
    x := AbsorbInto(h, x, text);
    var lengths := U128(BitLength(|aad|), BitLength(|text|));
    PutBits(lengths);
    XorBits(x, lengths);
    x := Mul128(XorWords(x, lengths), h);
    PutBits(x);
    out := PutBe64(x.hi) + PutBe64(x.lo);
    BytesBack(out);
  }
}
