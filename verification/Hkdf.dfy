/** HMAC (RFC 2104) and HKDF (RFC 5869) over SHA-256, as crypto/sha256.c computes them. */
module Hkdf {
  import opened ByteSeq
  import opened Sha256
  import opened Sha256Stream

  // ---------------------------------------------------------------- HMAC

  function XorAll(k: Bytes, b: bv8): (r: Bytes)
    ensures |r| == |k| && forall i | 0 <= i < |k| :: r[i] == XorByte(k[i], b)
  {
    if k == [] then [] else XorAll(k[..|k| - 1], b) + [XorByte(k[|k| - 1], b)]
  }

  function XorByte(a: bv8, b: bv8): bv8 { a ^ b }

  /** The 64-byte key block: long keys are hashed, short ones padded with zeros. */
  function KeyBlock(key: Bytes): (k: Block)
  {
    var short := if |key| > 64 then Digest(key) else key;
    short + Repeat(0, 64 - |short|)
  }

  function Hmac(key: Bytes, message: Bytes): (mac: Bytes)
    ensures |mac| == 32
  {
    var k := KeyBlock(key);
    Digest(XorAll(k, 0x5c) + Digest(XorAll(k, 0x36) + message))
  }

  lemma BlockIsItsKey(k: Block)
    ensures KeyBlock(k) == k
  {
    assert k + Repeat(0, 0) == k;
  }

  /** Different keys stand for the same key block: a key and its hash when long, a key and its zero padding
      when short. */
  lemma SameKey(key: Bytes, n: nat, message: Bytes)
    ensures |key| > 64 ==> Hmac(key, message) == Hmac(Digest(key), message)
    ensures |key| + n <= 64 ==> Hmac(key, message) == Hmac(key + Repeat(0, n), message)
  {
    hide Digest, XorAll, Repeat, Hmac;
    if |key| > 64 {
      SameBlock(key, Digest(key), message);
    } else if |key| + n <= 64 {
      assert key + Repeat(0, n) + Repeat(0, 64 - |key| - n) == key + Repeat(0, 64 - |key|);
      SameBlock(key, key + Repeat(0, n), message);
    }
  }

  lemma SameBlock(key: Bytes, other: Bytes, message: Bytes)
    requires KeyBlock(key) == KeyBlock(other)
    ensures Hmac(key, message) == Hmac(other, message)
  {
    hide KeyBlock, Digest, XorAll;
  }

  /** One loop of the pad computation in `hmac_sha256`. */
  method XorInto(k: Block, b: bv8) returns (r: Bytes)
    ensures r == XorAll(k, b)
  {
    hide XorByte;
    var a := new bv8[64];
    var i := 0;
    while i < 64
      invariant 0 <= i <= 64 && forall j | 0 <= j < i :: a[j] == XorByte(k[j], b)
    {
      a[i] := XorByte(k[i], b);
      i := i + 1;
    }
    r := a[..];
    assert forall j | 0 <= j < 64 :: r[j] == XorAll(k, b)[j];
  }

  /** The two hash computations of HMAC, the inner message arriving in pieces. */
  method MacPieces(k: Block, pieces: seq<Bytes>) returns (mac: Bytes)
    ensures mac == Hmac(k, Concat(pieces))
  {
    hide Digest, XorAll;
    BlockIsItsKey(k);
    var ipad := XorInto(k, 0x36);
    var opad := XorInto(k, 0x5c);
    var inner := DigestOf([ipad] + pieces);
    ConcatFirst(ipad, pieces);
    mac := DigestOf([opad, inner]);
    assert [opad, inner][..1] == [opad] && [opad][..0] == [];
    assert Concat([opad]) == [] + opad == opad;
    assert Concat([opad, inner]) == opad + inner;
  }

  lemma {:induction false} ConcatFirst(first: Bytes, rest: seq<Bytes>)
    ensures Concat([first] + rest) == first + Concat(rest)
  {
    if rest == [] {
      assert [first] + rest == [first] && [first][..0] == [];
      assert Concat([first]) == [] + first == first;
      assert first + [] == first;
    } else {
      var n := |rest| - 1;
      ConcatFirst(first, rest[..n]);
      assert ([first] + rest)[..n + 1] == [first] + rest[..n];
      assert first + Concat(rest) == first + Concat(rest[..n]) + rest[n];
    }
  }

  /** `hmac_sha256`. */
  method HmacSha256(key: Bytes, message: Bytes) returns (mac: Bytes)
    ensures mac == Hmac(key, message)
  {
    hide Digest, XorAll;
    var k: Bytes;
    if |key| > 64 {
      var hashed := DigestOf([key]);
      assert [key][..0] == [] && Concat([key]) == [] + key == key;
      k := hashed + Repeat(0, 32);
    } else {
      k := key + Repeat(0, 64 - |key|);
    }
    BlockIsItsKey(k);
    mac := MacPieces(k, [message]);
    assert [message][..0] == [] && Concat([message]) == [] + message == message;
  }

  // ---------------------------------------------------------------- HKDF

  function Byte(n: nat): bv8 { (n % 256) as bv8 }

  /** `T(i)` of section 2.3 of RFC 5869; the standard stops at 255. */
  function T(prk: Bytes, info: Bytes, i: nat): (t: Bytes)
    ensures i > 0 ==> |t| == 32
  {
    if i == 0 then [] else Hmac(prk, T(prk, info, i - 1) + info + [Byte(i)])
  }

  /** The i-th block the code produces, with its one-byte counter and its own test for a previous block. */
  function CodeBlock(prk: Bytes, info: Bytes, i: nat): (t: Bytes)
    requires i > 0
    ensures |t| == 32
  {
    Hmac(prk, (if i % 256 > 1 then CodeBlock(prk, info, i - 1) else []) + info + [Byte(i)])
  }

  /** The first `n` blocks in a row. */
  function CodeStream(prk: Bytes, info: Bytes, n: nat): (s: Bytes)
    ensures |s| == 32 * n
  {
    if n == 0 then [] else CodeStream(prk, info, n - 1) + CodeBlock(prk, info, n)
  }

  function RfcStream(prk: Bytes, info: Bytes, n: nat): (s: Bytes)
    ensures |s| == 32 * n
  {
    if n == 0 then [] else RfcStream(prk, info, n - 1) + T(prk, info, n)
  }

  function Blocks(len: nat): (n: nat)
    ensures len <= 32 * n < len + 32
  {
    (len + 31) / 32
  }

  function Extract(salt: Bytes, ikm: Bytes): Bytes
  {
    Hmac(if salt == [] then Repeat(0, 32) else salt, ikm)
  }

  /** HKDF as RFC 5869 defines it, for at most 255 blocks. */
  function Rfc5869(ikm: Bytes, salt: Bytes, info: Bytes, len: nat): (out: Bytes)
    requires len <= 255 * 32
    ensures |out| == len
  {
    RfcStream(Extract(salt, ikm), info, Blocks(len))[..len]
  }

  function CodeOutput(prk: Bytes, info: Bytes, len: nat): (out: Bytes)
    ensures |out| == len
  {
    CodeStream(prk, info, Blocks(len))[..len]
  }

  lemma {:induction false} BlockIsStandard(prk: Bytes, info: Bytes, i: nat)
    requires 0 < i <= 255
    ensures CodeBlock(prk, info, i) == T(prk, info, i)
  {
    hide Hmac, Byte, T, CodeBlock;
    TUnfold(prk, info, i);
    CodeUnfold(prk, info, i);
    if i > 1 {
      BlockIsStandard(prk, info, i - 1);
    }
  }

  lemma TUnfold(prk: Bytes, info: Bytes, i: nat)
    requires i > 0
    ensures T(prk, info, 0) == [] && T(prk, info, i) == Hmac(prk, T(prk, info, i - 1) + info + [Byte(i)])
  {
    hide Hmac, Byte;
  }

  lemma CodeUnfold(prk: Bytes, info: Bytes, i: nat)
    requires i > 0
    ensures i % 256 > 1 ==> CodeBlock(prk, info, i) == Hmac(prk, CodeBlock(prk, info, i - 1) + info + [Byte(i)])
    ensures i % 256 <= 1 ==> CodeBlock(prk, info, i) == Hmac(prk, [] + info + [Byte(i)])
  {
    hide Hmac, Byte;
  }

  lemma {:induction false} StreamIsStandard(prk: Bytes, info: Bytes, n: nat)
    requires n <= 255
    ensures CodeStream(prk, info, n) == RfcStream(prk, info, n)
  {
    hide CodeBlock, T;
    if n > 0 {
      StreamIsStandard(prk, info, n - 1);
      BlockIsStandard(prk, info, n);
    }
  }

  /** The counter byte wraps, and the test on it drops the previous block with it: the blocks repeat with period 256. */
  lemma {:induction false} BlocksRepeat(prk: Bytes, info: Bytes, i: nat)
    requires i > 0
    ensures CodeBlock(prk, info, i + 256) == CodeBlock(prk, info, i)
  {
    hide Hmac, Byte, CodeBlock;
    assert (i + 256) % 256 == i % 256;
    ByteWraps(i);
    CodeUnfold(prk, info, i);
    CodeUnfold(prk, info, i + 256);
    if i % 256 > 1 {
      BlocksRepeat(prk, info, i - 1);
    }
  }

  lemma ByteWraps(i: nat)
    ensures Byte(i + 256) == Byte(i)
  {
    assert (i + 256) % 256 == i % 256;
  }

  lemma {:induction false} StreamAt(prk: Bytes, info: Bytes, n: nat, i: nat)
    requires 0 < i <= n
    ensures CodeStream(prk, info, n)[32 * i - 32..32 * i] == CodeBlock(prk, info, i)
  {
    hide CodeBlock, CodeStream;
    StreamStep(prk, info, n - 1);
    if i < n {
      StreamAt(prk, info, n - 1, i);
    }
    SliceOfSum(CodeStream(prk, info, n - 1), CodeBlock(prk, info, n), 32 * i - 32);
  }

  lemma SliceOfSum(s: Bytes, t: Bytes, k: nat)
    requires |t| == 32 && (k + 32 <= |s| || k == |s|)
    ensures (s + t)[k..k + 32] == if k == |s| then t else s[k..k + 32]
  {
  }

  lemma {:induction false} StreamPrefix(prk: Bytes, info: Bytes, m: nat, n: nat)
    requires m <= n
    ensures CodeStream(prk, info, n)[..32 * m] == CodeStream(prk, info, m)
  {
    hide CodeBlock;
    if m < n {
      StreamPrefix(prk, info, m, n - 1);
      assert CodeStream(prk, info, n)[..32 * m] == CodeStream(prk, info, n - 1)[..32 * m];
    } else {
      assert CodeStream(prk, info, n)[..32 * n] == CodeStream(prk, info, n);
    }
  }

  /** Asking for fewer bytes gives the front of what asking for more gives. */
  lemma OutputPrefix(prk: Bytes, info: Bytes, short: nat, long: nat)
    requires short <= long
    ensures CodeOutput(prk, info, long)[..short] == CodeOutput(prk, info, short)
  {
    hide CodeStream;
    var m, n := Blocks(short), Blocks(long);
    StreamPrefix(prk, info, m, n);
    assert CodeStream(prk, info, n)[..long][..short] == CodeStream(prk, info, n)[..32 * m][..short];
  }

  /** Past 8192 bytes the key material starts over. */
  lemma OutputRepeats(prk: Bytes, info: Bytes, len: nat, j: nat)
    requires j + 256 * 32 < len
    ensures CodeOutput(prk, info, len)[j + 256 * 32] == CodeOutput(prk, info, len)[j]
  {
    hide CodeStream, CodeBlock;
    var n, i := Blocks(len), j / 32 + 1;
    var s := CodeStream(prk, info, n);
    StreamAt(prk, info, n, i);
    StreamAt(prk, info, n, i + 256);
    BlocksRepeat(prk, info, i);
    assert s[j] == s[32 * i - 32..32 * i][j % 32];
    assert s[j + 256 * 32] == s[32 * (i + 256) - 32..32 * (i + 256)][j % 32];
  }

  /** `hkdf_sha256`. */
  method HkdfSha256(ikm: Bytes, salt: Bytes, info: Bytes, out: array<bv8>)
    modifies out
    ensures out[..] == CodeOutput(Extract(salt, ikm), info, out.Length)
    ensures out.Length <= 255 * 32 ==> out[..] == Rfc5869(ikm, salt, info, out.Length)
  {
    hide Hmac, CodeStream, RfcStream, Repeat;
    var prk := HmacSha256(if salt == [] then Repeat(0, 32) else salt, ikm);
    Expand(prk, info, out);
    if out.Length <= 255 * 32 {
      StreamIsStandard(prk, info, Blocks(out.Length));
    }
  }

  /** The expand loop of `hkdf_sha256`. */
  method Expand(prk: Bytes, info: Bytes, out: array<bv8>)
    requires |prk| == 32
    modifies out
    ensures out[..] == CodeOutput(prk, info, out.Length)
  {
    hide Hmac, CodeBlock, CodeStream, Repeat, Blocks;
    var k: Block := prk + Repeat(0, 32);
    SameKeyBlock(prk);
    var t: Bytes := [];
    var ctr: nat := 0;
    var done := 0;
    ghost var n: nat := 0;
    StreamStep(prk, info, 0);
    while done < out.Length
      invariant ctr == n % 256 && done == Least(32 * n, out.Length) && (n > 0 ==> 32 * (n - 1) < out.Length)
      invariant n > 0 ==> t == CodeBlock(prk, info, n)
      invariant out[..done] == CodeStream(prk, info, n)[..done]
    {
      NextCounter(n);
      ctr := (ctr + 1) % 256;
      t := NextBlock(prk, k, info, t, n, ctr);
      var copy := Least(out.Length - done, 32);
      ChunkStep(prk, info, n, copy);
      assert out[..done] == CodeStream(prk, info, n)[..done];
      CopyInto(out, done, t[..copy]);
      n := n + 1;
      done := done + copy;
    }
    assert out[..] == out[..done];
    BlocksIs(out.Length, n);
  }

  lemma NextCounter(n: nat)
    ensures (n % 256 + 1) % 256 == (n + 1) % 256
  {
  }

  lemma BlocksIs(len: nat, n: nat)
    requires 32 * n >= len && (n > 0 ==> 32 * (n - 1) < len)
    ensures n == Blocks(len)
  {
  }

  function Least(a: nat, b: nat): nat { if a < b then a else b }

  lemma ChunkStep(prk: Bytes, info: Bytes, n: nat, copy: nat)
    requires copy <= 32
    ensures CodeStream(prk, info, n + 1)[..32 * n + copy]
            == CodeStream(prk, info, n)[..32 * n] + CodeBlock(prk, info, n + 1)[..copy]
  {
    hide CodeBlock;
    assert CodeStream(prk, info, n)[..32 * n] == CodeStream(prk, info, n);
  }

  lemma SameKeyBlock(prk: Bytes)
    requires |prk| == 32
    ensures KeyBlock(prk) == prk + Repeat(0, 32)
    ensures forall message :: Hmac(prk, message) == Hmac(prk + Repeat(0, 32), message)
  {
    hide Digest, XorAll;
    BlockIsItsKey(prk + Repeat(0, 32));
  }

  lemma StreamStep(prk: Bytes, info: Bytes, n: nat)
    ensures CodeStream(prk, info, 0) == []
    ensures CodeStream(prk, info, n + 1) == CodeStream(prk, info, n) + CodeBlock(prk, info, n + 1)
  {
    hide CodeBlock;
  }

  /** One turn of the expand loop; the previous block is used only when the counter byte is above one. */
  method NextBlock(prk: Bytes, k: Block, info: Bytes, t: Bytes, ghost n: nat, ctr: nat) returns (next: Bytes)
    requires forall message :: Hmac(prk, message) == Hmac(k, message)
    requires n > 0 ==> t == CodeBlock(prk, info, n)
    requires ctr == (n + 1) % 256
    ensures next == CodeBlock(prk, info, n + 1)
  {
    hide Hmac, Byte, Concat, XorAll, Digest;
    assert Byte(ctr) == Byte(n + 1) by {
      ByteModulo(n + 1);
    }
    if ctr > 1 {
      next := MacPieces(k, [t, info, [Byte(ctr)]]);
      ConcatThree(t, info, [Byte(ctr)]);
    } else {
      next := MacPieces(k, [info, [Byte(ctr)]]);
      ConcatThree([], info, [Byte(ctr)]);
      assert [] + info == info;
    }
  }

  lemma ByteModulo(i: nat)
    ensures Byte(i % 256) == Byte(i)
  {
  }

  lemma ConcatThree(a: Bytes, b: Bytes, c: Bytes)
    ensures Concat([a, b, c]) == a + b + c
    ensures Concat([b, c]) == b + c
  {
    ConcatOne(a);
    ConcatOne(b);
    assert [a, b][..1] == [a] && [b, c][..1] == [b];
    assert Concat([a, b]) == a + b;
    assert [a, b, c][..2] == [a, b];
  }

  lemma ConcatOne(a: Bytes)
    ensures Concat([a]) == a
  {
    assert [a][..0] == [];
    assert [] + a == a;
  }
}
