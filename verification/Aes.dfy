/** AES-256 as FIPS 197 defines it. */
module Aes {
  import opened ByteSeq
  import opened Gf8

  const SBOX: seq<bv8> := [
    0x63, 0x7c, 0x77, 0x7b, 0xf2, 0x6b, 0x6f, 0xc5, 0x30, 0x01, 0x67, 0x2b, 0xfe, 0xd7, 0xab, 0x76,
    0xca, 0x82, 0xc9, 0x7d, 0xfa, 0x59, 0x47, 0xf0, 0xad, 0xd4, 0xa2, 0xaf, 0x9c, 0xa4, 0x72, 0xc0,
    0xb7, 0xfd, 0x93, 0x26, 0x36, 0x3f, 0xf7, 0xcc, 0x34, 0xa5, 0xe5, 0xf1, 0x71, 0xd8, 0x31, 0x15,
    0x04, 0xc7, 0x23, 0xc3, 0x18, 0x96, 0x05, 0x9a, 0x07, 0x12, 0x80, 0xe2, 0xeb, 0x27, 0xb2, 0x75,
    0x09, 0x83, 0x2c, 0x1a, 0x1b, 0x6e, 0x5a, 0xa0, 0x52, 0x3b, 0xd6, 0xb3, 0x29, 0xe3, 0x2f, 0x84,
    0x53, 0xd1, 0x00, 0xed, 0x20, 0xfc, 0xb1, 0x5b, 0x6a, 0xcb, 0xbe, 0x39, 0x4a, 0x4c, 0x58, 0xcf,
    0xd0, 0xef, 0xaa, 0xfb, 0x43, 0x4d, 0x33, 0x85, 0x45, 0xf9, 0x02, 0x7f, 0x50, 0x3c, 0x9f, 0xa8,
    0x51, 0xa3, 0x40, 0x8f, 0x92, 0x9d, 0x38, 0xf5, 0xbc, 0xb6, 0xda, 0x21, 0x10, 0xff, 0xf3, 0xd2,
    0xcd, 0x0c, 0x13, 0xec, 0x5f, 0x97, 0x44, 0x17, 0xc4, 0xa7, 0x7e, 0x3d, 0x64, 0x5d, 0x19, 0x73,
    0x60, 0x81, 0x4f, 0xdc, 0x22, 0x2a, 0x90, 0x88, 0x46, 0xee, 0xb8, 0x14, 0xde, 0x5e, 0x0b, 0xdb,
    0xe0, 0x32, 0x3a, 0x0a, 0x49, 0x06, 0x24, 0x5c, 0xc2, 0xd3, 0xac, 0x62, 0x91, 0x95, 0xe4, 0x79,
    0xe7, 0xc8, 0x37, 0x6d, 0x8d, 0xd5, 0x4e, 0xa9, 0x6c, 0x56, 0xf4, 0xea, 0x65, 0x7a, 0xae, 0x08,
    0xba, 0x78, 0x25, 0x2e, 0x1c, 0xa6, 0xb4, 0xc6, 0xe8, 0xdd, 0x74, 0x1f, 0x4b, 0xbd, 0x8b, 0x8a,
    0x70, 0x3e, 0xb5, 0x66, 0x48, 0x03, 0xf6, 0x0e, 0x61, 0x35, 0x57, 0xb9, 0x86, 0xc1, 0x1d, 0x9e,
    0xe1, 0xf8, 0x98, 0x11, 0x69, 0xd9, 0x8e, 0x94, 0x9b, 0x1e, 0x87, 0xe9, 0xce, 0x55, 0x28, 0xdf,
    0x8c, 0xa1, 0x89, 0x0d, 0xbf, 0xe6, 0x42, 0x68, 0x41, 0x99, 0x2d, 0x0f, 0xb0, 0x54, 0xbb, 0x16]

  function Sbox(b: bv8): bv8 { SBOX[b as nat] }

  type Key = k: Bytes | |k| == 32 witness Repeat(0, 32)

  // ---------------------------------------------------------------- key schedule (section 5.2)

  function SubWord(w: bv32): bv32
  {
    var b := PutBe32(w);
    Be32([Sbox(b[0]), Sbox(b[1]), Sbox(b[2]), Sbox(b[3])])
  }

  function RotWord(w: bv32): bv32 { (w << 8) | (w >> 24) }

  /** The round constant x^(i-1). */
  function Rcon(i: nat): bv8
    requires i > 0
  {
    if i == 1 then 1 else Xtime(Rcon(i - 1))
  }

  function Xor32(v: bv32, w: bv32): bv32 { v ^ w }

  /** What the schedule does to the previous word. */
  function Temp(w: bv32, i: nat): bv32
    requires i >= 8
  {
    if i % 8 == 0 then Xor32(SubWord(RotWord(w)), (Rcon(i / 8) as bv32) << 24)
    else if i % 8 == 4 then SubWord(w)
    else w
  }

  function Word(key: Key, i: nat): bv32
  {
    if i < 8 then Be32(key[4 * i..4 * i + 4])
    else Xor32(Word(key, i - 8), Temp(Word(key, i - 1), i))
  }

  // -------------------------------------------- the cipher (section 5.1); byte r + 4c is row r of column c

  type State = s: Bytes | |s| == 16 witness Repeat(0, 16)

  function SubBytes(s: State): State
  {
    seq(16, i requires 0 <= i < 16 => Sbox(s[i]))
  }

  /** Column `c` takes its row `r` from column c + r. */
  function ShiftedColumn(s: State, c: nat): (r: Bytes)
    requires c < 4
    ensures |r| == 4
  {
    [s[4 * c], s[4 * ((c + 1) % 4) + 1], s[4 * ((c + 2) % 4) + 2], s[4 * ((c + 3) % 4) + 3]]
  }

  function ShiftRows(s: State): State
  {
    ShiftedColumn(s, 0) + ShiftedColumn(s, 1) + ShiftedColumn(s, 2) + ShiftedColumn(s, 3)
  }

  /** Row `r` of a mixed column: 2 times its own byte, 3 times the next, 1 times the other two. */
  function Mixed(s: State, c: nat, r: nat): bv8
    requires c < 4 && r < 4
  {
    Xor(Xor(Xor(Xtime(s[4 * c + r]), Triple(s[4 * c + (r + 1) % 4])), s[4 * c + (r + 2) % 4]), s[4 * c + (r + 3) % 4])
  }

  function Triple(a: bv8): bv8 { Xor(a, Xtime(a)) }

  function MixedColumn(s: State, c: nat): (r: Bytes)
    requires c < 4
    ensures |r| == 4
  {
    [Mixed(s, c, 0), Mixed(s, c, 1), Mixed(s, c, 2), Mixed(s, c, 3)]
  }

  /** The first `n` columns mixed. */
  function MixedColumns(s: State, n: nat): (r: Bytes)
    requires n <= 4
    ensures |r| == 4 * n
  {
    if n == 0 then [] else MixedColumns(s, n - 1) + MixedColumn(s, n - 1)
  }

  function MixColumns(s: State): State { MixedColumns(s, 4) }

  function KeyedColumn(s: State, key: Key, round: nat, c: nat): (r: Bytes)
    requires c < 4
    ensures |r| == 4
  {
    var k := PutBe32(Word(key, 4 * round + c));
    [Xor(s[4 * c], k[0]), Xor(s[4 * c + 1], k[1]), Xor(s[4 * c + 2], k[2]), Xor(s[4 * c + 3], k[3])]
  }

  /** The first `n` columns with the round key added. */
  function KeyedColumns(s: State, key: Key, round: nat, n: nat): (r: Bytes)
    requires n <= 4
    ensures |r| == 4 * n
  {
    if n == 0 then [] else KeyedColumns(s, key, round, n - 1) + KeyedColumn(s, key, round, n - 1)
  }

  function AddRoundKey(s: State, key: Key, round: nat): State { KeyedColumns(s, key, round, 4) }

  /** The state after the initial key addition and `r` full rounds. */
  function AfterRound(key: Key, s: State, r: nat): State
  {
    if r == 0 then AddRoundKey(s, key, 0)
    else AddRoundKey(MixColumns(ShiftRows(SubBytes(AfterRound(key, s, r - 1)))), key, r)
  }

  function Cipher(key: Key, s: State): State
  {
    AddRoundKey(ShiftRows(SubBytes(AfterRound(key, s, 13))), key, 14)
  }
}
