/** The SHA-256 of crypto/sha256.c: the compression function, padding and digest of FIPS 180-4 as functions. */
module Sha256 {
  import opened ByteSeq

  const K: seq<bv32> := [
    0x428a2f98, 0x71374491, 0xb5c0fbcf, 0xe9b5dba5, 0x3956c25b, 0x59f111f1, 0x923f82a4, 0xab1c5ed5,
    0xd807aa98, 0x12835b01, 0x243185be, 0x550c7dc3, 0x72be5d74, 0x80deb1fe, 0x9bdc06a7, 0xc19bf174,
    0xe49b69c1, 0xefbe4786, 0x0fc19dc6, 0x240ca1cc, 0x2de92c6f, 0x4a7484aa, 0x5cb0a9dc, 0x76f988da,
    0x983e5152, 0xa831c66d, 0xb00327c8, 0xbf597fc7, 0xc6e00bf3, 0xd5a79147, 0x06ca6351, 0x14292967,
    0x27b70a85, 0x2e1b2138, 0x4d2c6dfc, 0x53380d13, 0x650a7354, 0x766a0abb, 0x81c2c92e, 0x92722c85,
    0xa2bfe8a1, 0xa81a664b, 0xc24b8b70, 0xc76c51a3, 0xd192e819, 0xd6990624, 0xf40e3585, 0x106aa070,
    0x19a4c116, 0x1e376c08, 0x2748774c, 0x34b0bcb5, 0x391c0cb3, 0x4ed8aa4a, 0x5b9cca4f, 0x682e6ff3,
    0x748f82ee, 0x78a5636f, 0x84c87814, 0x8cc70208, 0x90befffa, 0xa4506ceb, 0xbef9a3f7, 0xc67178f2]

  // ---------------------------------------------------------------- words

  function Ch(x: bv32, y: bv32, z: bv32): bv32 { (x & y) ^ (!x & z) }
  function Maj(x: bv32, y: bv32, z: bv32): bv32 { (x & y) ^ (x & z) ^ (y & z) }
  function Ep0(x: bv32): bv32 { x.RotateRight(2) ^ x.RotateRight(13) ^ x.RotateRight(22) }
  function Ep1(x: bv32): bv32 { x.RotateRight(6) ^ x.RotateRight(11) ^ x.RotateRight(25) }
  function Sig0(x: bv32): bv32 { x.RotateRight(7) ^ x.RotateRight(18) ^ (x >> 3) }
  function Sig1(x: bv32): bv32 { x.RotateRight(17) ^ x.RotateRight(19) ^ (x >> 10) }

  // -------------------------------- the compression function (section 6.2.2 of FIPS 180-4)

  type Block = b: Bytes | |b| == 64 witness Repeat(0, 64)

  /** `u32` addition, named so that proofs can treat it as a symbol. */
  function Add(x: bv32, y: bv32): bv32 { x + y }

  function Mix(w2: bv32, w7: bv32, w15: bv32, w16: bv32): bv32
  {
    Add(Add(Add(Sig1(w2), w7), Sig0(w15)), w16)
  }

  /** The message schedule. */
  function W(block: Block, t: nat): bv32
  {
    if t < 16 then Be32(block[4 * t..4 * t + 4])
    else Mix(W(block, t - 2), W(block, t - 7), W(block, t - 15), W(block, t - 16))
  }

  datatype Regs = Regs(a: bv32, b: bv32, c: bv32, d: bv32, e: bv32, f: bv32, g: bv32, h: bv32)

  const IV: Regs := Regs(0x6a09e667, 0xbb67ae85, 0x3c6ef372, 0xa54ff53a, 0x510e527f, 0x9b05688c, 0x1f83d9ab, 0x5be0cd19)

  function Round(r: Regs, k: bv32, w: bv32): Regs
  {
    var t1 := Add(Add(Add(Add(r.h, Ep1(r.e)), Ch(r.e, r.f, r.g)), k), w);
    var t2 := Add(Ep0(r.a), Maj(r.a, r.b, r.c));
    Regs(Add(t1, t2), r.a, r.b, r.c, Add(r.d, t1), r.e, r.f, r.g)
  }

  function RoundConstant(t: nat): bv32
    requires t < 64
  {
    K[t]
  }

  /** The registers after `t` rounds. */
  function Rounds(r: Regs, block: Block, t: nat): Regs
    requires t <= 64
  {
    if t == 0 then r else Round(Rounds(r, block, t - 1), RoundConstant(t - 1), W(block, t - 1))
  }

  function AddRegs(r: Regs, s: Regs): Regs
  {
    Regs(Add(r.a, s.a), Add(r.b, s.b), Add(r.c, s.c), Add(r.d, s.d),
         Add(r.e, s.e), Add(r.f, s.f), Add(r.g, s.g), Add(r.h, s.h))
  }

  function Compress(r: Regs, block: Block): Regs
  {
    AddRegs(r, Rounds(r, block, 64))
  }

  // ---------------------------------------------------------------- padding and digest (section 5.1.1)

  /** The number of zero bytes after the `0x80` byte: the fewest that leave room for the length in a whole block. */
  function ZeroPad(n: nat): nat { (119 - n % 64) % 64 }

  function Pad(m: Bytes): Bytes
  {
    m + [0x80] + Repeat(0, ZeroPad(|m|)) + PutBe64(BitLength(|m|))
  }

  /** Padding fills whole blocks with the fewest bytes that hold the marker and the length. */
  lemma PadIsWhole(m: Bytes)
    ensures |Pad(m)| % 64 == 0 && |m| + 9 <= |Pad(m)| < |m| + 9 + 64
  {
    hide BitLength, PutBe64, ZeroPad;
    ZerosFit(|m|);
  }

  lemma ZerosFit(n: nat)
    ensures (n + 9 + ZeroPad(n)) % 64 == 0 && ZeroPad(n) < 64
  {
  }

  /** Folding the compression function over the whole blocks of a message. */
  function Fold(r: Regs, m: Bytes): Regs
    decreases |m|
  {
    if |m| < 64 then r else Fold(Compress(r, m[..64]), m[64..])
  }

  function Output(r: Regs): (d: Bytes)
    ensures |d| == 32
  {
    PutBe32(r.a) + PutBe32(r.b) + PutBe32(r.c) + PutBe32(r.d)
    + PutBe32(r.e) + PutBe32(r.f) + PutBe32(r.g) + PutBe32(r.h)
  }

  function Digest(m: Bytes): (d: Bytes)
    ensures |d| == 32
  {
    Output(Fold(IV, Pad(m)))
  }

  lemma {:induction false} FoldConcat(r: Regs, a: Bytes, b: Bytes)
    requires |a| % 64 == 0
    ensures Fold(r, a + b) == Fold(Fold(r, a), b)
    decreases |a|
  {
    hide Compress;
    if |a| == 0 {
      assert a + b == b;
    } else {
      assert (a + b)[..64] == a[..64] && (a + b)[64..] == a[64..] + b;
      FoldConcat(Compress(r, a[..64]), a[64..], b);
    }
  }

  // ---------------------------------------------------------------- what a streaming context stands for

  /** Registers `r` and the unprocessed bytes `tail` are what absorbing the message `m` leaves. */
  predicate Absorbed(r: Regs, tail: Bytes, m: Bytes)
  {
    && |tail| < 64 && |tail| <= |m| && (|m| - |tail|) % 64 == 0
    && tail == m[|m| - |tail|..] && r == Fold(IV, m[..|m| - |tail|])
  }

  /** More bytes that do not complete a block wait in the buffer. */
  lemma AbsorbPart(r: Regs, tail: Bytes, m: Bytes, c: Bytes)
    requires Absorbed(r, tail, m) && |tail| + |c| < 64
    ensures Absorbed(r, tail + c, m + c)
  {
    hide Fold;
    var n := |m| - |tail|;
    assert (m + c)[..n] == m[..n] && (m + c)[n..] == m[n..] + c;
  }

  /** Bytes that complete a block are compressed. */
  lemma AbsorbBlock(r: Regs, tail: Bytes, m: Bytes, c: Bytes)
    requires Absorbed(r, tail, m) && |tail| + |c| == 64
    ensures Absorbed(Compress(r, tail + c), [], m + c)
  {
    hide Compress, Fold;
    var n := |m| - |tail|;
    assert m + c == m[..n] + (tail + c);
    FoldConcat(IV, m[..n], tail + c);
    FoldOne(r, tail + c);
    assert (m + c)[..|m + c|] == m + c && (m + c)[|m + c|..] == [];
  }

  lemma FoldOne(r: Regs, block: Block)
    ensures Fold(r, block) == Compress(r, block)
  {
    hide Compress;
    assert block[..64] == block && block[64..] == [];
  }

  lemma AbsorbedWhole(r: Regs, m: Bytes)
    requires Absorbed(r, [], m)
    ensures r == Fold(IV, m)
  {
    assert m[..|m|] == m;
  }
}
