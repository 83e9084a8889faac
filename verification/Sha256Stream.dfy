/** The streaming interface of crypto/sha256.c: a context with a 64-byte buffer, updated in place. */
module Sha256Stream {
  import opened ByteSeq
  import opened Sha256

  lemma ScheduleStep(block: Block, t: nat)
    requires t < 64
    ensures W(block, t) == if t < 16 then Be32(block[4 * t..4 * t + 4])
                           else Mix(W(block, t - 2), W(block, t - 7), W(block, t - 15), W(block, t - 16))
  {
    hide Mix, Be32;
  }

  lemma RoundsStep(r: Regs, block: Block, t: nat)
    requires t < 64
    ensures Rounds(r, block, 0) == r
    ensures Rounds(r, block, t + 1) == Round(Rounds(r, block, t), RoundConstant(t), W(block, t))
  {
    hide Round, RoundConstant, W;
  }

  /** The schedule loops of `sha256_transform`. */
  method Expand(block: Block) returns (w: array<bv32>)
    ensures fresh(w) && w.Length == 64 && forall j | 0 <= j < 64 :: w[j] == W(block, j)
  {
    hide Sig0, Sig1, Be32, W, Add;
    w := new bv32[64];
    var i := 0;
    while i < 16
      invariant 0 <= i <= 16 && forall j | 0 <= j < i :: w[j] == W(block, j)
    {
      ScheduleStep(block, i);
      w[i] := Be32(block[i * 4..i * 4 + 4]);
      i := i + 1;
    }
    while i < 64
      invariant 16 <= i <= 64 && forall j | 0 <= j < i :: w[j] == W(block, j)
    {
      ScheduleStep(block, i);
      w[i] := Add(Add(Add(Sig1(w[i - 2]), w[i - 7]), Sig0(w[i - 15])), w[i - 16]);
      i := i + 1;
    }
  }

  /** `sha256_transform`. */
  method Transform(state: Regs, block: Block) returns (r: Regs)
    ensures r == Compress(state, block)
  {
    hide Add, Ch, Maj, Ep0, Ep1, W, Rounds, RoundConstant;
    RoundsStep(state, block, 0);
    var w := Expand(block);
    var a, b, c, d := state.a, state.b, state.c, state.d;
    var e, f, g, h := state.e, state.f, state.g, state.h;
    var i := 0;
    while i < 64
      invariant 0 <= i <= 64
      invariant forall j | 0 <= j < 64 :: w[j] == W(block, j)
      invariant Regs(a, b, c, d, e, f, g, h) == Rounds(state, block, i)
    {
      RoundsStep(state, block, i);
      var t1 := Add(Add(Add(Add(h, Ep1(e)), Ch(e, f, g)), RoundConstant(i)), w[i]);
      var t2 := Add(Ep0(a), Maj(a, b, c));
      h, g, f, e := g, f, e, Add(d, t1);
      d, c, b, a := c, b, a, Add(t1, t2);
      i := i + 1;
    }
    r := Regs(Add(state.a, a), Add(state.b, b), Add(state.c, c), Add(state.d, d),
              Add(state.e, e), Add(state.f, f), Add(state.g, g), Add(state.h, h));
  }

  /** The copy into the context's buffer. */
  method CopyInto(buf: array<bv8>, at: nat, data: Bytes)
    requires at + |data| <= buf.Length
    modifies buf
    ensures buf[..at + |data|] == old(buf[..at]) + data
  {
    var j := 0;
    while j < |data|
      invariant 0 <= j <= |data|
      invariant buf[..at + j] == old(buf[..at]) + data[..j]
    {
      buf[at + j] := data[j];
      assert buf[..at + j + 1] == buf[..at + j] + [data[j]];
      j := j + 1;
    }
  }

  class Context {
    var state: Regs
    var count: nat                 // 64-bit byte counter
    const buf: array<bv8>
    var buflen: nat
    ghost var message: Bytes       // everything absorbed so far

    ghost predicate Valid()
      reads this, buf
    {
      && buf.Length == 64 && buflen < 64
      && count == |message| % TWO64
      && Absorbed(state, buf[..buflen], message)
    }

    /** `sha256_init`. */
    constructor ()
      ensures Valid() && message == [] && fresh(buf)
    {
      buf := new bv8[64];
      state, count, buflen, message := IV, 0, 0, [];
    }

    /** `sha256_update`: whatever the split, the context stands for the bytes so far and the new ones. */
    method Update(data: Bytes)
      requires Valid()
      modifies this, buf
      ensures Valid() && message == old(message) + data
    {
      hide Compress, Fold, Absorbed;
      count := (count + |data|) % TWO64;
      CountAdd(|message|, |data|);
      ghost var m := message;
      var k := 0;
      assert m + data[..0] == m;
      while k < |data|
        invariant 0 <= k <= |data| && buf.Length == 64 && buflen < 64
        invariant Absorbed(state, buf[..buflen], m + data[..k])
        invariant message == m && count == (|m| + |data|) % TWO64
      {
        var room := 64 - buflen;
        var copy := if |data| - k < room then |data| - k else room;
        ghost var tail, c := buf[..buflen], data[k..k + copy];
        CopyInto(buf, buflen, data[k..k + copy]);
        assert m + data[..k] + c == m + data[..k + copy];
        buflen := buflen + copy;
        k := k + copy;
        if buflen == 64 {
          AbsorbBlock(state, tail, m + data[..k - copy], c);
          assert buf[..] == buf[..64] == tail + c;
          state := Transform(state, buf[..]);
          buflen := 0;
          assert buf[..0] == [];
        } else {
          AbsorbPart(state, tail, m + data[..k - copy], c);
        }
      }
      assert data[..k] == data;
      message := m + data;
    }

    /** The padding of `sha256_final`: one `0x80` byte, then zeros until the length fits the block. */
    method PadOut()
      requires Valid()
      modifies this, buf
      ensures Valid() && message == old(message) + [0x80] + Repeat(0, ZeroPad(|old(message)|))
    {
      hide Absorbed, ZeroPad;
      ghost var m := message;
      Update([0x80]);
      ghost var z := 0;
      assert m + [0x80] + Repeat(0, 0) == m + [0x80];
      BufferedIsRest(state, buf[..buflen], message);
      while buflen != 56
        invariant Valid() && z <= ZeroPad(|m|) && message == m + [0x80] + Repeat(0, z)
        invariant (|message| - buflen) % 64 == 0
        decreases ZeroPad(|m|) - z
      {
        PadProgress(|m|, z, buflen);
        Update([0]);
        assert message == m + [0x80] + Repeat(0, z + 1);
        BufferedIsRest(state, buf[..buflen], message);
        z := z + 1;
      }
      PadProgress(|m|, z, 56);
    }

    /** `sha256_final`: the digest of everything absorbed, and the context wiped. */
    method Final() returns (digest: Bytes)
      requires Valid()
      modifies this, buf
      ensures digest == Digest(old(message))
      ensures state == Regs(0, 0, 0, 0, 0, 0, 0, 0) && count == 0 && buflen == 0
      ensures forall i | 0 <= i < buf.Length :: buf[i] == 0
    {
      hide Absorbed, Fold, PutBe64, PutBe32, ZeroPad, BitLength, Repeat, Output;
      ghost var m := message;
      BitCount(|m|);
      var bits := Bits(count);
      PadOut();
      Update(PutBe64(bits));
      BufferedIsRest(state, buf[..buflen], message);
      Drained(|m|, buflen);
      assert buf[..buflen] == [];
      AbsorbedWhole(state, message);
      digest := Output(state);
      Wipe();
    }

    /** `memzero_explicit` on the context. */
    method Wipe()
      requires buf.Length == 64
      modifies this, buf
      ensures state == Regs(0, 0, 0, 0, 0, 0, 0, 0) && count == 0 && buflen == 0
      ensures forall i | 0 <= i < buf.Length :: buf[i] == 0
    {
      forall i | 0 <= i < 64 {
        buf[i] := 0;
      }
      state, count, buflen := Regs(0, 0, 0, 0, 0, 0, 0, 0), 0, 0;
    }
  }

  lemma BufferedIsRest(r: Regs, tail: Bytes, m: Bytes)
    requires Absorbed(r, tail, m)
    ensures |tail| <= |m| && (|m| - |tail|) % 64 == 0
  {
  }

  /** `count * 8` in 64 bits. */
  function Bits(count: nat): bv64 { (count * 8 % TWO64) as bv64 }

  /** The padding loop stops exactly when the zeros of the standard are in. */
  lemma PadProgress(n: nat, z: nat, buflen: nat)
    requires z <= ZeroPad(n) && buflen < 64 && (n + 1 + z - buflen) % 64 == 0
    ensures buflen == 56 <==> z == ZeroPad(n)
  {
    var r := n % 64;
    assert (r + 1 + z - buflen) % 64 == 0 by {
      Residue(n / 64, r, 1 + z - buflen);
    }
    assert ZeroPad(n) == if r <= 55 then 55 - r else 119 - r;
  }

  lemma Residue(q: nat, r: nat, k: int)
    ensures (64 * q + r + k) % 64 == (r + k) % 64
  {
  }

  lemma Drained(n: nat, buflen: nat)
    requires buflen < 64 && (n + 1 + ZeroPad(n) + 8 - buflen) % 64 == 0
    ensures buflen == 0
  {
  }

  lemma BitCount(n: nat)
    ensures Bits(n % TWO64) == BitLength(n)
  {
    BitCountExact(n);
  }

  lemma BitCountExact(n: nat)
    ensures n % TWO64 * 8 % TWO64 == 8 * n % TWO64
  {
    ModShift(n % TWO64 * 8, n / TWO64 * 8);
  }

  lemma {:induction false} ModShift(x: nat, q: nat)
    ensures (x + q * TWO64) % TWO64 == x % TWO64
  {
    if q > 0 {
      ModShift(x, q - 1);
    }
  }

  /** `sha256`, and the same digest however the message is cut into pieces. */
  method DigestOf(pieces: seq<Bytes>) returns (digest: Bytes)
    ensures digest == Digest(Concat(pieces))
  {
    hide Digest;
    var ctx := new Context();
    var i := 0;
    while i < |pieces|
      invariant 0 <= i <= |pieces| && ctx.Valid() && fresh(ctx) && fresh(ctx.buf)
      invariant ctx.message == Concat(pieces[..i])
    {
      assert pieces[..i + 1][..i] == pieces[..i];
      ctx.Update(pieces[i]);
      i := i + 1;
    }
    assert pieces[..i] == pieces;
    digest := ctx.Final();
  }

  function Concat(pieces: seq<Bytes>): Bytes
  {
    if pieces == [] then [] else Concat(pieces[..|pieces| - 1]) + pieces[|pieces| - 1]
  }

  lemma CountAdd(n: nat, k: nat)
    ensures (n % TWO64 + k) % TWO64 == (n + k) % TWO64
  {
  }
}
