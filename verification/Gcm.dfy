/** Galois/Counter Mode as NIST SP 800-38D defines it, over AES-256. */
module Gcm {
  import opened ByteSeq
  import opened Aes
  import Gf8

  // -------------------------------- GF(2^128), section 6.3: elements are bit strings x0 x1 ... x127

  type Elem = e: seq<bool> | |e| == 128 witness Zeros(128)

  function Zeros(n: nat): (r: seq<bool>)
    ensures |r| == n && forall i | 0 <= i < n :: !r[i]
  {
    if n == 0 then [] else Zeros(n - 1) + [false]
  }

  function Plus(a: Elem, b: Elem): Elem
  {
    seq(128, i requires 0 <= i < 128 => a[i] != b[i])
  }

  /** The block R: 11100001 followed by 120 zeros. */
  function R(): Elem { [true, true, true, false, false, false, false, true] + Zeros(120) }

  /** Multiplication by x: a shift to the right, reduced when a bit falls out. */
  function Shift(v: Elem): Elem { [false] + v[..127] }

  function TimesX(v: Elem): Elem { if v[127] then Plus(Shift(v), R()) else Shift(v) }

  /** Steps `i` to 127 of the block multiplication, with the running product `z` and multiplier `v`. */
  function MulFrom(x: Elem, i: nat, z: Elem, v: Elem): Elem
    requires i <= 128
    decreases 128 - i
  {
    if i == 128 then z else MulFrom(x, i + 1, if x[i] then Plus(z, v) else z, TimesX(v))
  }

  function Mul(x: Elem, y: Elem): Elem { MulFrom(x, 0, Zeros(128), y) }

  // ---------------------------------------------------------------- bits and bytes

  function Bit8(b: bv8, r: nat): bool
    requires r < 8
  {
    ByteBit(b, (7 - r) as bv3)
  }

  function ByteBit(b: bv8, t: bv3): bool { (b >> t) & 1 == 1 }

  function BitsOf(b: State): Elem
  {
    seq(128, i requires 0 <= i < 128 => Bit8(b[i / 8], i % 8))
  }

  function ToByte(b0: bool, b1: bool, b2: bool, b3: bool, b4: bool, b5: bool, b6: bool, b7: bool): bv8
  {
    (if b0 then 0x80 else 0) | (if b1 then 0x40 else 0) | (if b2 then 0x20 else 0) | (if b3 then 0x10 else 0)
    | (if b4 then 0x08 else 0) | (if b5 then 0x04 else 0) | (if b6 then 0x02 else 0) | (if b7 then 0x01 else 0)
  }

  function ToBytes(e: Elem): State
  {
    seq(16, k requires 0 <= k < 16 => ToByte(e[8 * k], e[8 * k + 1], e[8 * k + 2], e[8 * k + 3],
                                             e[8 * k + 4], e[8 * k + 5], e[8 * k + 6], e[8 * k + 7]))
  }

  lemma ByteBack(b: bv8)
    ensures ToByte(Bit8(b, 0), Bit8(b, 1), Bit8(b, 2), Bit8(b, 3), Bit8(b, 4), Bit8(b, 5), Bit8(b, 6), Bit8(b, 7)) == b
  {
  }

  lemma BitAt(b: State, k: nat, r: nat)
    requires k < 16 && r < 8
    ensures BitsOf(b)[8 * k + r] == Bit8(b[k], r)
  {
    hide Bit8;
    assert (8 * k + r) / 8 == k && (8 * k + r) % 8 == r;
  }

  lemma ByteAt(b: State, k: nat)
    requires k < 16
    ensures ToBytes(BitsOf(b))[k] == b[k]
  {
    hide ToByte, Bit8, BitsOf;
    BitAt(b, k, 0);
    BitAt(b, k, 1);
    BitAt(b, k, 2);
    BitAt(b, k, 3);
    BitAt(b, k, 4);
    BitAt(b, k, 5);
    BitAt(b, k, 6);
    BitAt(b, k, 7);
    ByteBack(b[k]);
  }

  /** Bits determine bytes. */
  lemma BytesBack(b: State)
    ensures ToBytes(BitsOf(b)) == b
  {
    hide ToBytes, BitsOf;
    forall k | 0 <= k < 16
      ensures ToBytes(BitsOf(b))[k] == b[k]
    {
      ByteAt(b, k);
    }
  }

  // ---------------------------------------------------------------- GHASH, section 6.4

  function ZeroPadded(data: Bytes): State
    requires |data| <= 16
  {
    data + Repeat(0, 16 - |data|)
  }

  function Min(a: nat, b: nat): nat { if a < b then a else b }

  /** Hashing a string cut into blocks, the last one padded with zeros. */
  function Absorb(h: Elem, y: Elem, data: Bytes): Elem
    decreases |data|
  {
    if data == [] then y
    else
      var n := Min(16, |data|);
      Absorb(h, Mul(Plus(y, BitsOf(ZeroPadded(data[..n]))), h), data[n..])
  }

  function LengthBlock(aad: nat, text: nat): State { Join8(PutBe64(BitLength(aad)), PutBe64(BitLength(text))) }

  function Join8(a: Bytes, b: Bytes): (r: State)
    requires |a| == 8 && |b| == 8
    ensures r == a + b
  {
    a + b
  }

  function GHash(h: Elem, aad: Bytes, text: Bytes): Elem
  {
    Mul(Plus(Absorb(h, Absorb(h, Zeros(128), aad), text), BitsOf(LengthBlock(|aad|, |text|))), h)
  }

  // ---------------------------------------------------------------- GCTR, section 6.5

  type Nonce = n: Bytes | |n| == 12 witness Repeat(0, 12)

  /** The 32-bit counter wraps. */
  function Next(ctr: bv32): bv32 { ctr + 1 }

  function XorBytes(a: Bytes, b: Bytes): (r: Bytes)
    requires |a| <= |b|
    ensures |r| == |a|
  {
    seq(|a|, i requires 0 <= i < |a| => Gf8.Xor(a[i], b[i]))
  }

  function CounterBlock(nonce: Nonce, ctr: bv32): State { nonce + PutBe32(ctr) }

  function Crypt(key: Key, nonce: Nonce, ctr: bv32, data: Bytes): (r: Bytes)
    ensures |r| == |data|
    decreases |data|
  {
    if data == [] then []
    else
      var n := Min(16, |data|);
      XorBytes(data[..n], Cipher(key, CounterBlock(nonce, ctr))) + Crypt(key, nonce, Next(ctr), data[n..])
  }

  lemma XorTwice(a: Bytes, b: Bytes)
    requires |a| <= |b|
    ensures XorBytes(XorBytes(a, b), b) == a
  {
  }

  /** Counter mode undoes itself. */
  lemma {:induction false} CryptTwice(key: Key, nonce: Nonce, ctr: bv32, data: Bytes)
    ensures Crypt(key, nonce, ctr, Crypt(key, nonce, ctr, data)) == data
    decreases |data|
  {
    hide Cipher, XorBytes, Next, CounterBlock;
    if data != [] {
      var n := Min(16, |data|);
      var ks := Cipher(key, CounterBlock(nonce, ctr));
      var c := Crypt(key, nonce, ctr, data);
      var rest := Crypt(key, nonce, Next(ctr), data[n..]);
      assert c[..n] == XorBytes(data[..n], ks) && c[n..] == rest;
      XorTwice(data[..n], ks);
      CryptTwice(key, nonce, Next(ctr), data[n..]);
    }
  }

  // ---------------------------------------------------------------- authenticated encryption, sections 7.1 and 7.2

  datatype Sealed = Sealed(text: Bytes, tag: State)
  datatype Opened = Plain(text: Bytes) | Rejected

  function TagFor(key: Key, nonce: Nonce, aad: Bytes, text: Bytes): State
  {
    var h := BitsOf(Cipher(key, Repeat(0, 16)));
    XorBytes(ToBytes(GHash(h, aad, text)), Cipher(key, CounterBlock(nonce, 1)))
  }

  function Seal(key: Key, nonce: Nonce, aad: Bytes, plain: Bytes): Sealed
  {
    var text := Crypt(key, nonce, 2, plain);
    Sealed(text, TagFor(key, nonce, aad, text))
  }

  function Open(key: Key, nonce: Nonce, aad: Bytes, text: Bytes, tag: State): Opened
  {
    if TagFor(key, nonce, aad, text) == tag then Plain(Crypt(key, nonce, 2, text)) else Rejected
  }

  /** What was sealed opens to the plaintext, and of all tags only the one it was sealed with opens it. */
  lemma SealOpen(key: Key, nonce: Nonce, aad: Bytes, plain: Bytes, tag: State)
    ensures var s := Seal(key, nonce, aad, plain);
            && |s.text| == |plain|
            && Open(key, nonce, aad, s.text, tag) == (if tag == s.tag then Plain(plain) else Rejected)
  {
    hide TagFor, Crypt;
    CryptTwice(key, nonce, 2, plain);
  }

  /** Opening and sealing again gives back the text and tag: two sealed messages never open to the same plaintext. */
  lemma OpenSeal(key: Key, nonce: Nonce, aad: Bytes, text: Bytes, tag: State)
    requires Open(key, nonce, aad, text, tag).Plain?
    ensures Seal(key, nonce, aad, Open(key, nonce, aad, text, tag).text) == Sealed(text, tag)
  {
    hide TagFor, Crypt;
    CryptTwice(key, nonce, 2, text);
  }
}
