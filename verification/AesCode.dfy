/** The AES-256 code of crypto/aes_gcm.c and of drivers/cortexcrypto/core/aes256.c, working in place on a
    16-byte state. */
module AesCode {
  import opened ByteSeq
  import opened Gf8
  import opened Aes

  // ---------------------------------------------------------------- key schedules

  lemma WordStep(key: Key, i: nat)
    ensures i < 8 ==> Word(key, i) == Be32(key[4 * i..4 * i + 4])
    ensures i >= 8 ==> Word(key, i) == Xor32(Word(key, i - 8), Temp(Word(key, i - 1), i))
  {
    hide Be32, Xor32, Temp;
  }

  const RCON: seq<bv8> := [0x00, 0x01, 0x02, 0x04, 0x08, 0x10, 0x20, 0x40, 0x80, 0x1b, 0x36]

  lemma RconTable(i: nat)
    requires 1 <= i <= 10
    ensures RCON[i] == Rcon(i)
  {
    assert Rcon(2) == 2;
    assert Rcon(4) == 8;
    assert Rcon(6) == 0x20;
    assert Rcon(8) == 0x80;
  }

  function Byte(w: bv32, k: nat): bv8
    requires k < 4
  {
    if k == 0 then (w & 0xFF) as bv8
    else if k == 1 then ((w >> 8) & 0xFF) as bv8
    else if k == 2 then ((w >> 16) & 0xFF) as bv8
    else ((w >> 24) & 0xFF) as bv8
  }

  function Join(a: bv8, b: bv8, c: bv8, d: bv8): bv32
  {
    ((a as bv32) << 24) | ((b as bv32) << 16) | ((c as bv32) << 8) | (d as bv32)
  }

  /** The kernel's one expression for RotWord, SubWord and the round constant. */
  function KernelRotSub(w: bv32, rc: bv8): bv32
  {
    Join(Xor(Sbox(Byte(w, 2)), rc), Sbox(Byte(w, 1)), Sbox(Byte(w, 0)), Sbox(Byte(w, 3)))
  }

  /** The driver's `subword`, and the kernel's expression for the same. */
  function CodeSub(w: bv32): bv32
  {
    Join(Sbox(Byte(w, 3)), Sbox(Byte(w, 2)), Sbox(Byte(w, 1)), Sbox(Byte(w, 0)))
  }

  lemma SubIsSub(w: bv32)
    ensures CodeSub(w) == SubWord(w)
  {
    hide Sbox;
  }

  lemma RotBytes(w: bv32)
    ensures Byte(RotWord(w), 3) == Byte(w, 2) && Byte(RotWord(w), 2) == Byte(w, 1)
    ensures Byte(RotWord(w), 1) == Byte(w, 0) && Byte(RotWord(w), 0) == Byte(w, 3)
  {
  }

  lemma ConstantInside(a: bv8, b: bv8, c: bv8, d: bv8, rc: bv8)
    ensures Join(Xor(a, rc), b, c, d) == Xor32(Join(a, b, c, d), (rc as bv32) << 24)
  {
  }

  /** Both ways of writing the step are the standard's. */
  lemma RotSubAgree(w: bv32, rc: bv8)
    ensures KernelRotSub(w, rc) == Xor32(SubWord(RotWord(w)), (rc as bv32) << 24)
  {
    hide Join, Xor, Sbox, SubWord, RotWord, Byte, Xor32;
    SubIsSub(RotWord(w));
    RotBytes(w);
    ConstantInside(Sbox(Byte(w, 2)), Sbox(Byte(w, 1)), Sbox(Byte(w, 0)), Sbox(Byte(w, 3)), rc);
  }

  /** What the kernel does to the previous word. */
  method KernelTemp(previous: bv32, i: nat) returns (w: bv32)
    requires 8 <= i < 60
    ensures w == Temp(previous, i)
  {
    hide SubWord, RotWord, KernelRotSub, CodeSub, Rcon, Xor32;
    w := previous;
    if i % 8 == 0 {
      RconTable(i / 8);
      RotSubAgree(w, RCON[i / 8]);
      w := KernelRotSub(w, RCON[i / 8]);
    } else if i % 8 == 4 {
      SubIsSub(w);
      w := CodeSub(w);
    }
  }

  /** What the driver does to the previous word. */
  method DriverTemp(previous: bv32, i: nat) returns (t: bv32)
    requires 8 <= i < 60
    ensures t == Temp(previous, i)
  {
    hide SubWord, RotWord, CodeSub, Rcon, Xor32;
    t := previous;
    if i % 8 == 0 {
      RconTable(i / 8);
      SubIsSub(RotWord(t));
      t := Xor32(CodeSub(RotWord(t)), (RCON[i / 8] as bv32) << 24);
    } else if i % 8 == 4 {
      SubIsSub(t);
      t := CodeSub(t);
    }
  }

  /** `aes256_key_expand` of the kernel. */
  method KernelExpand(key: Key) returns (rk: array<bv32>)
    ensures fresh(rk) && rk.Length == 60 && forall j | 0 <= j < 60 :: rk[j] == Word(key, j)
  {
    hide Be32, Xor32, Word, Temp;
    rk := new bv32[60];
    var i := 0;
    while i < 8
      invariant 0 <= i <= 8 && forall j | 0 <= j < i :: rk[j] == Word(key, j)
    {
      WordStep(key, i);
      rk[i] := Be32(key[4 * i..4 * i + 4]);
      i := i + 1;
    }
    while i < 60
      invariant 8 <= i <= 60 && forall j | 0 <= j < i :: rk[j] == Word(key, j)
    {
      WordStep(key, i);
      var w := KernelTemp(rk[i - 1], i);
      rk[i] := Xor32(rk[i - 8], w);
      i := i + 1;
    }
  }

  /** `aes256_key_expand` of the driver. */
  method DriverExpand(key: Key) returns (rk: array<bv32>)
    ensures fresh(rk) && rk.Length == 60 && forall j | 0 <= j < 60 :: rk[j] == Word(key, j)
  {
    hide Be32, Xor32, Word, Temp;
    rk := new bv32[60];
    var i := 0;
    while i < 8
      invariant 0 <= i <= 8 && forall j | 0 <= j < i :: rk[j] == Word(key, j)
    {
      WordStep(key, i);
      rk[i] := Be32(key[4 * i..4 * i + 4]);
      i := i + 1;
    }
    while i < 60
      invariant 8 <= i <= 60 && forall j | 0 <= j < i :: rk[j] == Word(key, j)
    {
      WordStep(key, i);
      var t := DriverTemp(rk[i - 1], i);
      rk[i] := Xor32(rk[i - 8], t);
      i := i + 1;
    }
  }

  // ---------------------------------------------------------------- the steps of a round, in place

  method SubBytesIn(s: array<bv8>)
    requires s.Length == 16
    modifies s
    ensures s[..] == SubBytes(old(s[..]))
  {
    hide Sbox;
    var i := 0;
    while i < 16
      invariant 0 <= i <= 16
      invariant forall j | 0 <= j < i :: s[j] == Sbox(old(s[j]))
      invariant forall j | i <= j < 16 :: s[j] == old(s[j])
    {
      s[i] := Sbox(s[i]);
      i := i + 1;
    }
  }

  method ShiftRowsIn(s: array<bv8>)
    requires s.Length == 16
    modifies s
    ensures s[..] == ShiftRows(old(s[..]))
  {
    ghost var was: State := s[..];
    RotateLeft(s, 1, 5, 9, 13);
    Exchange(s, 2, 10);
    Exchange(s, 6, 14);
    RotateLeft(s, 15, 11, 7, 3);
    ShiftedIs(was, s[..]);
  }

  lemma ShiftedIs(was: State, s: State)
    requires s[0] == was[0] && s[1] == was[5] && s[2] == was[10] && s[3] == was[15]
    requires s[4] == was[4] && s[5] == was[9] && s[6] == was[14] && s[7] == was[3]
    requires s[8] == was[8] && s[9] == was[13] && s[10] == was[2] && s[11] == was[7]
    requires s[12] == was[12] && s[13] == was[1] && s[14] == was[6] && s[15] == was[11]
    ensures s == ShiftRows(was)
  {
    ColumnFrom(was, s, 0);
    ColumnFrom(was, s, 1);
    ColumnFrom(was, s, 2);
    ColumnFrom(was, s, 3);
    hide ShiftedColumn;
    FourColumns(s);
  }

  lemma ColumnFrom(was: State, s: State, c: nat)
    requires c < 4 && s[4 * c] == was[4 * c] && s[4 * c + 1] == was[4 * ((c + 1) % 4) + 1]
    requires s[4 * c + 2] == was[4 * ((c + 2) % 4) + 2] && s[4 * c + 3] == was[4 * ((c + 3) % 4) + 3]
    ensures s[4 * c..4 * c + 4] == ShiftedColumn(was, c)
  {
    FourBytes(s, 4 * c);
  }

  lemma FourBytes(s: State, k: nat)
    requires k <= 12
    ensures s[k..k + 4] == [s[k], s[k + 1], s[k + 2], s[k + 3]]
  {
  }

  lemma FourColumns(s: State)
    ensures s == s[0..4] + s[4..8] + s[8..12] + s[12..16]
  {
  }

  /** Four assignments through one temporary. */
  method RotateLeft(s: array<bv8>, a: nat, b: nat, c: nat, d: nat)
    requires a < s.Length && b < s.Length && c < s.Length && d < s.Length
    requires a != b && a != c && a != d && b != c && b != d && c != d
    modifies s
    ensures s[a] == old(s[b]) && s[b] == old(s[c]) && s[c] == old(s[d]) && s[d] == old(s[a])
    ensures forall i | 0 <= i < s.Length && i != a && i != b && i != c && i != d :: s[i] == old(s[i])
  {
    var t := s[a];
    s[a] := s[b];
    s[b] := s[c];
    s[c] := s[d];
    s[d] := t;
  }

  method Exchange(s: array<bv8>, a: nat, b: nat)
    requires a < s.Length && b < s.Length && a != b
    modifies s
    ensures s[a] == old(s[b]) && s[b] == old(s[a])
    ensures forall i | 0 <= i < s.Length && i != a && i != b :: s[i] == old(s[i])
  {
    var t := s[a];
    s[a] := s[b];
    s[b] := t;
  }

  /** The four bytes of a mixed column, with the XORs in the order the code has them. */
  function Column(a: bv8, b: bv8, c: bv8, d: bv8): (col: Bytes)
    ensures |col| == 4
  {
    [Xor(Xor(Xor(Xtime(a), Triple(b)), c), d), Xor(Xor(Xor(a, Xtime(b)), Triple(c)), d),
     Xor(Xor(Xor(a, b), Xtime(c)), Triple(d)), Xor(Xor(Xor(Triple(a), b), c), Xtime(d))]
  }

  lemma ColumnIsMixed(s: State, c: nat)
    requires c < 4
    ensures Column(s[4 * c], s[4 * c + 1], s[4 * c + 2], s[4 * c + 3]) == MixedColumn(s, c)
  {
    hide Xtime, Triple, Xor, Mixed;
    var a, b, cc, d := s[4 * c], s[4 * c + 1], s[4 * c + 2], s[4 * c + 3];
    Rotate(a, Xtime(b), Triple(cc), d);
    Rotate(a, b, Xtime(cc), Triple(d));
    Rotate(b, Xtime(cc), Triple(d), a);
    Rotate(Xtime(d), Triple(a), b, cc);
    MixedAt(s, c);
  }

  lemma MixedAt(s: State, c: nat)
    requires c < 4
    ensures var a, b, cc, d := s[4 * c], s[4 * c + 1], s[4 * c + 2], s[4 * c + 3];
            && Mixed(s, c, 0) == Xor(Xor(Xor(Xtime(a), Triple(b)), cc), d)
            && Mixed(s, c, 1) == Xor(Xor(Xor(Xtime(b), Triple(cc)), d), a)
            && Mixed(s, c, 2) == Xor(Xor(Xor(Xtime(cc), Triple(d)), a), b)
            && Mixed(s, c, 3) == Xor(Xor(Xor(Xtime(d), Triple(a)), b), cc)
  {
    hide Xtime, Triple, Xor;
  }

  lemma XorCommute(a: bv8, b: bv8)
    ensures Xor(a, b) == Xor(b, a)
  {
  }

  lemma Rotate(w: bv8, x: bv8, y: bv8, z: bv8)
    ensures Xor(Xor(Xor(w, x), y), z) == Xor(Xor(Xor(x, y), z), w)
  {
    hide Xor;
    XorAssoc(w, x, y);
    XorAssoc(w, Xor(x, y), z);
    XorCommute(w, Xor(Xor(x, y), z));
  }

  /** A column of `aes_mix_columns`: products with the constant on the left. */
  method KernelColumn(a: bv8, b: bv8, c: bv8, d: bv8) returns (col: Bytes)
    ensures col == Column(a, b, c, d)
  {
    hide Times, Xtime, Xor;
    var a2 := Mul(2, a);
    var a3 := Mul(3, a);
    var b2 := Mul(2, b);
    var b3 := Mul(3, b);
    var c2 := Mul(2, c);
    var c3 := Mul(3, c);
    var d2 := Mul(2, d);
    var d3 := Mul(3, d);
    TwoTimes(a); ThreeTimes(a); TwoTimes(b); ThreeTimes(b);
    TwoTimes(c); ThreeTimes(c); TwoTimes(d); ThreeTimes(d);
    col := [Xor(Xor(Xor(a2, b3), c), d), Xor(Xor(Xor(a, b2), c3), d),
            Xor(Xor(Xor(a, b), c2), d3), Xor(Xor(Xor(a3, b), c), d2)];
  }

  /** A column of the driver: products with the constant on the right. */
  method DriverColumn(a: bv8, b: bv8, c: bv8, d: bv8) returns (col: Bytes)
    ensures col == Column(a, b, c, d)
  {
    hide Times, Xtime, Xor;
    var a2 := Mul(a, 2);
    var a3 := Mul(a, 3);
    var b2 := Mul(b, 2);
    var b3 := Mul(b, 3);
    var c2 := Mul(c, 2);
    var c3 := Mul(c, 3);
    var d2 := Mul(d, 2);
    var d3 := Mul(d, 3);
    TimesTwoThree(a); TimesTwoThree(b); TimesTwoThree(c); TimesTwoThree(d);
    col := [Xor(Xor(Xor(a2, b3), c), d), Xor(Xor(Xor(a, b2), c3), d),
            Xor(Xor(Xor(a, b), c2), d3), Xor(Xor(Xor(a3, b), c), d2)];
  }

  method MixOne(a: bv8, b: bv8, c: bv8, d: bv8, kernel: bool) returns (col: Bytes)
    ensures col == Column(a, b, c, d)
  {
    hide Column;
    if kernel {
      col := KernelColumn(a, b, c, d);
    } else {
      col := DriverColumn(a, b, c, d);
    }
  }

  /** The state with one column replaced. */
  function Patched(s: State, c: nat, col: Bytes): State
    requires c < 4 && |col| == 4
  {
    s[..4 * c] + col + s[4 * c + 4..]
  }

  method WriteColumn(s: array<bv8>, c: nat, col: Bytes)
    requires s.Length == 16 && c < 4 && |col| == 4
    modifies s
    ensures s[..] == Patched(old(s[..]), c, col)
  {
    s[4 * c], s[4 * c + 1], s[4 * c + 2], s[4 * c + 3] := col[0], col[1], col[2], col[3];
  }

  /** The first `c` columns are mixed, the others as they were. */
  ghost predicate MixedTo(s: State, was: State, c: nat)
  {
    c <= 4 && s == MixedColumns(was, c) + was[4 * c..]
  }

  /** Either MixColumns loop; `kernel` says whose column it calls. */
  method MixColumnsIn(s: array<bv8>, kernel: bool)
    requires s.Length == 16
    modifies s
    ensures s[..] == MixColumns(old(s[..]))
  {
    hide Column, MixColumns, MixedTo, Patched;
    ghost var was: State := s[..];
    MixedEnds(was);
    var c := 0;
    while c < 4
      invariant 0 <= c <= 4 && MixedTo(s[..], was, c)
    {
      MixStep(s[..], was, c);
      var col := MixOne(s[4 * c], s[4 * c + 1], s[4 * c + 2], s[4 * c + 3], kernel);
      WriteColumn(s, c, col);
      c := c + 1;
    }
  }

  lemma MixedEnds(was: State)
    ensures MixedTo(was, was, 0) && forall s: State :: MixedTo(s, was, 4) ==> s == MixColumns(was)
  {
    hide MixedColumns;
    MixedSteps(was, 0);
    Ends(was, MixedColumns(was, 4));
  }

  /** Replacing column `c` by what the code computes from it mixes one column more. */
  lemma MixStep(s: State, was: State, c: nat)
    requires c < 4 && MixedTo(s, was, c)
    ensures MixedTo(Patched(s, c, Column(s[4 * c], s[4 * c + 1], s[4 * c + 2], s[4 * c + 3])), was, c + 1)
  {
    hide Column, MixedColumn, MixedColumns;
    NextColumn(s, MixedColumns(was, c), was, c);
    MixedSteps(was, c);
    ColumnIsMixed(was, c);
    ColumnDone(s, MixedColumns(was, c), was, c, MixedColumn(was, c));
  }

  function KeyBytes(s: State, k: Bytes, c: nat): (col: Bytes)
    requires c < 4 && |k| == 4
    ensures |col| == 4
  {
    [Xor(s[4 * c], k[0]), Xor(s[4 * c + 1], k[1]), Xor(s[4 * c + 2], k[2]), Xor(s[4 * c + 3], k[3])]
  }

  /** The first `c` columns have the round key added, the others are as they were. */
  ghost predicate KeyedTo(s: State, was: State, key: Key, round: nat, c: nat)
  {
    c <= 4 && s == KeyedColumns(was, key, round, c) + was[4 * c..]
  }

  lemma KeyedEnds(was: State, key: Key, round: nat)
    ensures KeyedTo(was, was, key, round, 0)
    ensures forall s: State :: KeyedTo(s, was, key, round, 4) ==> s == AddRoundKey(was, key, round)
  {
    hide KeyedColumns;
    KeyedSteps(was, key, round, 0);
    Ends(was, KeyedColumns(was, key, round, 4));
  }

  lemma KeyStep(s: State, was: State, key: Key, round: nat, c: nat)
    requires c < 4 && KeyedTo(s, was, key, round, c)
    ensures KeyedTo(Patched(s, c, KeyBytes(s, PutBe32(Word(key, 4 * round + c)), c)), was, key, round, c + 1)
  {
    hide PutBe32, Xor, Word, KeyedColumns;
    NextColumn(s, KeyedColumns(was, key, round, c), was, c);
    KeyedSteps(was, key, round, c);
    ColumnDone(s, KeyedColumns(was, key, round, c), was, c, KeyedColumn(was, key, round, c));
  }

  lemma MixedSteps(s: State, n: nat)
    requires n < 4
    ensures MixedColumns(s, 0) == [] && MixedColumns(s, n + 1) == MixedColumns(s, n) + MixedColumn(s, n)
  {
    hide MixedColumn;
  }

  lemma KeyedSteps(s: State, key: Key, round: nat, n: nat)
    requires n < 4
    ensures KeyedColumns(s, key, round, 0) == []
    ensures KeyedColumns(s, key, round, n + 1) == KeyedColumns(s, key, round, n) + KeyedColumn(s, key, round, n)
  {
    hide KeyedColumn;
  }

  lemma Ends(s: State, done: State)
    ensures [] + s[0..] == s && done + s[16..] == done
  {
  }

  lemma NextColumn(s: State, done: Bytes, was: State, c: nat)
    requires c < 4 && |done| == 4 * c && s == done + was[4 * c..]
    ensures s[4 * c] == was[4 * c] && s[4 * c + 1] == was[4 * c + 1]
    ensures s[4 * c + 2] == was[4 * c + 2] && s[4 * c + 3] == was[4 * c + 3]
  {
  }

  lemma ColumnDone(s: State, done: Bytes, was: State, c: nat, col: Bytes)
    requires c < 4 && |done| == 4 * c && |col| == 4 && s == done + was[4 * c..]
    ensures s[..4 * c] + col + s[4 * c + 4..] == done + col + was[4 * (c + 1)..]
  {
  }

  method AddRoundKeyIn(s: array<bv8>, rk: array<bv32>, ghost key: Key, round: nat)
    requires s.Length == 16 && rk.Length == 60 && round <= 14
    requires forall j | 0 <= j < 60 :: rk[j] == Word(key, j)
    modifies s
    ensures s[..] == AddRoundKey(old(s[..]), key, round)
  {
    hide PutBe32, Xor, Word, AddRoundKey, KeyedTo, KeyBytes, Patched;
    ghost var was: State := s[..];
    KeyedEnds(was, key, round);
    var i := 0;
    while i < 4
      invariant 0 <= i <= 4 && KeyedTo(s[..], was, key, round, i)
    {
      KeyStep(s[..], was, key, round, i);
      WriteColumn(s, i, KeyBytes(s[..], PutBe32(rk[4 * round + i]), i));
      i := i + 1;
    }
  }

  /** The round loop of `aes256_encrypt_block` and of `aes256_block_encrypt`. */
  method EncryptBlock(rk: array<bv32>, ghost key: Key, input: State, kernel: bool) returns (output: State)
    requires rk.Length == 60 && forall j | 0 <= j < 60 :: rk[j] == Word(key, j)
    ensures output == Cipher(key, input)
  {
    hide SubBytes, ShiftRows, MixColumns, AddRoundKey, Word;
    var s := new bv8[16](i requires 0 <= i < 16 => input[i]);
    assert s[..] == input;
    AddRoundKeyIn(s, rk, key, 0);
    var r := 1;
    while r < 14
      invariant 1 <= r <= 14
      invariant forall j | 0 <= j < 60 :: rk[j] == Word(key, j)
      invariant s[..] == AfterRound(key, input, r - 1)
    {
      SubBytesIn(s);
      ShiftRowsIn(s);
      MixColumnsIn(s, kernel);
      AddRoundKeyIn(s, rk, key, r);
      r := r + 1;
    }
    SubBytesIn(s);
    ShiftRowsIn(s);
    AddRoundKeyIn(s, rk, key, 14);
    output := s[..];
  }
}
