/** Byte strings and the big-endian words both ciphers and hashes are built from. */
module ByteSeq {

  type Bytes = seq<bv8>

  function Repeat(b: bv8, n: nat): (r: Bytes)
    ensures |r| == n && forall i | 0 <= i < n :: r[i] == b
  {
    if n == 0 then [] else Repeat(b, n - 1) + [b]
  }

  function Be32(p: Bytes): bv32
    requires |p| == 4
  {
    ((p[0] as bv32) << 24) | ((p[1] as bv32) << 16) | ((p[2] as bv32) << 8) | (p[3] as bv32)
  }

  function PutBe32(v: bv32): (r: Bytes)
    ensures |r| == 4
  {
    [((v >> 24) & 0xFF) as bv8, ((v >> 16) & 0xFF) as bv8, ((v >> 8) & 0xFF) as bv8, (v & 0xFF) as bv8]
  }

  /** Byte `k` of a 64-bit word, counted from the top. */
  function Byte64(v: bv64, k: nat): bv8
    requires k < 8
  {
    if k == 0 then ((v >> 56) & 0xFF) as bv8 else if k == 1 then ((v >> 48) & 0xFF) as bv8
    else if k == 2 then ((v >> 40) & 0xFF) as bv8 else if k == 3 then ((v >> 32) & 0xFF) as bv8
    else if k == 4 then ((v >> 24) & 0xFF) as bv8 else if k == 5 then ((v >> 16) & 0xFF) as bv8
    else if k == 6 then ((v >> 8) & 0xFF) as bv8 else (v & 0xFF) as bv8
  }

  function PutBe64(v: bv64): (r: Bytes)
    ensures |r| == 8
  {
    [Byte64(v, 0), Byte64(v, 1), Byte64(v, 2), Byte64(v, 3), Byte64(v, 4), Byte64(v, 5), Byte64(v, 6), Byte64(v, 7)]
  }

  const TWO64: nat := 0x1_0000_0000_0000_0000

  /** The bit length of the message as the 64-bit counter holds it; exact for messages under 2^61 bytes. */
  function BitLength(n: nat): bv64 { (8 * n % TWO64) as bv64 }
}
