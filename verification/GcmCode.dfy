/** AES-256-GCM as crypto/aes_gcm.c and drivers/cortexcrypto/core/aes256.c run it: both against the one
    specification. */
module GcmCode {
  import opened ByteSeq
  import opened Aes
  import opened Gcm
  import Gf8
  import AesCode
  import GhashKernel
  import GhashDriver

  const EBADMSG: int := 74

  // ---------------------------------------------------------------- shared loops

  /** `out[done + i] = in[done + i] ^ keystream[i]` for one chunk. */
  method XorChunk(out: array<bv8>, done: nat, chunk: Bytes, keystream: State)
    requires |chunk| <= 16 && done + |chunk| <= out.Length
    modifies out
    ensures out[..done + |chunk|] == old(out[..done]) + XorBytes(chunk, keystream)
    ensures out[done + |chunk|..] == old(out[done + |chunk|..])
  {
    hide Gf8.Xor;
    ghost var x := XorBytes(chunk, keystream);
    var i := 0;
    while i < |chunk|
      invariant 0 <= i <= |chunk|
      invariant out[..done + i] == old(out[..done]) + x[..i]
      invariant out[done + i..] == old(out[done + i..])
    {
      out[done + i] := Gf8.Xor(chunk[i], keystream[i]);
      assert out[..done + i + 1] == out[..done + i] + [x[i]];
      i := i + 1;
    }
  }

  lemma DiffStep(diff: bv8, a: bv8, b: bv8)
    ensures diff | (a ^ b) == 0 <==> diff == 0 && a == b
  {
  }

  /** The comparison without an early exit. */
  method TagsDiffer(a: State, b: State) returns (diff: bv8)
    ensures diff == 0 <==> a == b
  {
    diff := 0;
    var i := 0;
    while i < 16
      invariant 0 <= i <= 16 && (diff == 0 <==> a[..i] == b[..i])
    {
      DiffStep(diff, a[i], b[i]);
      assert a[..i + 1] == a[..i] + [a[i]] && b[..i + 1] == b[..i] + [b[i]];
      diff := diff | (a[i] ^ b[i]);
      i := i + 1;
    }
    assert a[..16] == a && b[..16] == b;
  }

  /** What is written plus what is still to come is the whole counter-mode output. */
  ghost predicate Progress(key: Key, nonce: Nonce, start: bv32, data: Bytes, ctr: bv32, done: nat, written: Bytes)
  {
    done <= |data| && written + Crypt(key, nonce, ctr, data[done..]) == Crypt(key, nonce, start, data)
  }

  lemma ProgressStart(key: Key, nonce: Nonce, start: bv32, data: Bytes)
    ensures Progress(key, nonce, start, data, start, 0, [])
  {
    assert data[0..] == data;
    assert [] + Crypt(key, nonce, start, data) == Crypt(key, nonce, start, data);
  }

  lemma ProgressStep(key: Key, nonce: Nonce, start: bv32, data: Bytes, ctr: bv32, done: nat, written: Bytes)
    requires Progress(key, nonce, start, data, ctr, done, written) && done < |data|
    ensures var n := Min(16, |data| - done);
            Progress(key, nonce, start, data, Next(ctr), done + n,
                     written + XorBytes(data[done..done + n], Cipher(key, CounterBlock(nonce, ctr))))
  {
    hide Cipher, XorBytes, Next, CounterBlock;
    var n := Min(16, |data| - done);
    var rest := data[done..];
    assert rest[..n] == data[done..done + n] && rest[n..] == data[done + n..];
    var x := XorBytes(data[done..done + n], Cipher(key, CounterBlock(nonce, ctr)));
    var tail := Crypt(key, nonce, Next(ctr), data[done + n..]);
    assert Crypt(key, nonce, ctr, rest) == x + tail;
    assert written + (x + tail) == written + x + tail;
  }

  lemma ProgressEnd(key: Key, nonce: Nonce, start: bv32, data: Bytes, ctr: bv32, written: Bytes)
    requires Progress(key, nonce, start, data, ctr, |data|, written)
    ensures written == Crypt(key, nonce, start, data)
  {
    assert data[|data|..] == [];
    assert written + [] == written;
  }

  // ---------------------------------------------------------------- the kernel: crypto/aes_gcm.c

  /** `aes256_encrypt_block`: the key is expanded for every block. */
  method KernelBlock(key: Key, input: State) returns (output: State)
    ensures output == Cipher(key, input)
  {
    hide Cipher, Word;
    var rk := AesCode.KernelExpand(key);
    output := AesCode.EncryptBlock(rk, key, input, true);
  }

  /** `aes256_ctr_crypt` of the kernel. */
  method KernelCtr(key: Key, nonce: Nonce, start: bv32, data: Bytes, out: array<bv8>)
    requires |data| <= out.Length
    modifies out
    ensures out[..|data|] == Crypt(key, nonce, start, data) && out[|data|..] == old(out[|data|..])
  {
    hide Cipher, XorBytes, Next, CounterBlock, Crypt, Progress;
    var ctr, done := start, 0;
    ProgressStart(key, nonce, start, data);
    assert out[..0] == [];
    while done < |data|
      invariant done <= |data| && Progress(key, nonce, start, data, ctr, done, out[..done])
      invariant out[|data|..] == old(out[|data|..])
    {
      var keystream := KernelBlock(key, CounterBlock(nonce, ctr));
      var chunk := Min(16, |data| - done);
      ProgressStep(key, nonce, start, data, ctr, done, out[..done]);
      ghost var before := out[done + chunk..];
      XorChunk(out, done, data[done..done + chunk], keystream);
      assert out[|data|..] == before[|data| - done - chunk..];
      done := done + chunk;
      ctr := Next(ctr);
    }
    ProgressEnd(key, nonce, start, data, ctr, out[..done]);
  }

  /** The tag computation both kernel entry points make. */
  method KernelTag(key: Key, nonce: Nonce, aad: Bytes, text: Bytes) returns (tag: State)
    ensures tag == TagFor(key, nonce, aad, text)
  {
    hide Cipher, XorBytes, GHash, BitsOf, ToBytes, CounterBlock, Repeat;
    var h := KernelBlock(key, Repeat(0, 16));
    var mask := KernelBlock(key, CounterBlock(nonce, 1));
    var s := GhashKernel.Ghash(h, aad, text);
    tag := XorBytes(s, mask);
  }

  /** `aes256_gcm_encrypt`. */
  method KernelEncrypt(key: Key, nonce: Nonce, aad: Bytes, plain: Bytes, out: array<bv8>) returns (tag: State)
    requires |plain| <= out.Length
    modifies out
    ensures Sealed(out[..|plain|], tag) == Seal(key, nonce, aad, plain) && out[|plain|..] == old(out[|plain|..])
  {
    hide Crypt, TagFor;
    KernelCtr(key, nonce, 2, plain, out);
    tag := KernelTag(key, nonce, aad, out[..|plain|]);
  }

  /** `aes256_gcm_decrypt`: nothing is written unless the tag matches. */
  method KernelDecrypt(key: Key, nonce: Nonce, aad: Bytes, text: Bytes, tag: State, out: array<bv8>) returns (code: int)
    requires |text| <= out.Length
    modifies out
    ensures code == 0 <==> Open(key, nonce, aad, text, tag).Plain?
    ensures code == 0 ==>
              Open(key, nonce, aad, text, tag) == Plain(out[..|text|]) && out[|text|..] == old(out[|text|..])
    ensures code != 0 ==> code == -EBADMSG && out[..] == old(out[..])
  {
    hide Crypt, TagFor;
    var computed := KernelTag(key, nonce, aad, text);
    var diff := TagsDiffer(computed, tag);
    if diff != 0 {
      return -EBADMSG;
    }
    KernelCtr(key, nonce, 2, text, out);
    code := 0;
  }

  // -------------------------------- the driver: drivers/cortexcrypto/core/aes256.c, 32-bit lengths

  /** `aes256_ctr_crypt` of the driver, over an expanded key. */
  method DriverCtr(rk: array<bv32>, ghost key: Key, nonce: Nonce, start: bv32, data: Bytes, out: array<bv8>)
    requires rk.Length == 60 && forall j | 0 <= j < 60 :: rk[j] == Word(key, j)
    requires |data| <= out.Length
    modifies out
    ensures out[..|data|] == Crypt(key, nonce, start, data) && out[|data|..] == old(out[|data|..])
  {
    hide Cipher, XorBytes, Next, CounterBlock, Crypt, Progress, Word;
    var ctr, done := start, 0;
    ProgressStart(key, nonce, start, data);
    assert out[..0] == [];
    while done < |data|
      invariant done <= |data| && Progress(key, nonce, start, data, ctr, done, out[..done])
      invariant out[|data|..] == old(out[|data|..])
      invariant forall j | 0 <= j < 60 :: rk[j] == Word(key, j)
    {
      ProgressStep(key, nonce, start, data, ctr, done, out[..done]);
      var block := CounterBlock(nonce, ctr);
      ctr := Next(ctr);
      var keystream := AesCode.EncryptBlock(rk, key, block, false);
      var chunk := Min(16, |data| - done);
      ghost var before := out[done + chunk..];
      XorChunk(out, done, data[done..done + chunk], keystream);
      assert out[|data|..] == before[|data| - done - chunk..];
      done := done + chunk;
    }
    ProgressEnd(key, nonce, start, data, ctr, out[..done]);
  }

  method DriverTag(rk: array<bv32>, ghost key: Key, nonce: Nonce, aad: Bytes, text: Bytes) returns (tag: State)
    requires rk.Length == 60 && forall j | 0 <= j < 60 :: rk[j] == Word(key, j)
    requires |aad| <= GhashDriver.TWO32 - 16 && |text| <= GhashDriver.TWO32 - 16
    ensures tag == TagFor(key, nonce, aad, text)
  {
    hide Cipher, XorBytes, GHash, BitsOf, ToBytes, CounterBlock, Repeat, Word;
    var h := AesCode.EncryptBlock(rk, key, Repeat(0, 16), false);
    var raw := GhashDriver.Ghash(h, aad, text);
    var mask := AesCode.EncryptBlock(rk, key, CounterBlock(nonce, 1), false);
    tag := XorBytes(raw, mask);
  }

  /** `aes256gcm_encrypt`, for every length its hash loop ends on. */
  method DriverEncrypt(key: Key, nonce: Nonce, plain: Bytes, aad: Bytes, out: array<bv8>) returns (tag: State)
    requires |plain| <= out.Length
    requires |aad| <= GhashDriver.TWO32 - 16 && |plain| <= GhashDriver.TWO32 - 16
    modifies out
    ensures Sealed(out[..|plain|], tag) == Seal(key, nonce, aad, plain) && out[|plain|..] == old(out[|plain|..])
  {
    hide Crypt, TagFor, Word;
    var rk := AesCode.DriverExpand(key);
    DriverCtr(rk, key, nonce, 2, plain, out);
    tag := DriverTag(rk, key, nonce, aad, out[..|plain|]);
  }

  /** `aes256gcm_decrypt`, for every length its hash loop ends on. */
  method DriverDecrypt(key: Key, nonce: Nonce, text: Bytes, tag: State, aad: Bytes, out: array<bv8>) returns (code: int)
    requires |text| <= out.Length
    requires |aad| <= GhashDriver.TWO32 - 16 && |text| <= GhashDriver.TWO32 - 16
    modifies out
    ensures code == 0 <==> Open(key, nonce, aad, text, tag).Plain?
    ensures code == 0 ==>
              Open(key, nonce, aad, text, tag) == Plain(out[..|text|]) && out[|text|..] == old(out[|text|..])
    ensures code != 0 ==> code == -1 && out[..] == old(out[..])
  {
    hide Crypt, TagFor, Word;
    var rk := AesCode.DriverExpand(key);
    var expected := DriverTag(rk, key, nonce, aad, text);
    var diff := TagsDiffer(expected, tag);
    if diff != 0 {
      return -1;
    }
    rk := AesCode.DriverExpand(key);
    DriverCtr(rk, key, nonce, 2, text, out);
    code := 0;
  }
}
