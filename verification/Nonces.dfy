/** The nonces of cc_proc.c: a 32-bit counter in front of the time stamp, and a halt when the counter wraps. */
module Nonces {
  import opened ByteSeq
  import opened Gcm
  import opened CryptoIpc

  const TWO32: nat := 0x1_0000_0000

  datatype Generator = Generator(count: nat, halted: bool, issued: seq<Nonce>)

  const START: Generator := Generator(0, false, [])

  function Reversed4(b: Bytes): (r: Bytes)
    requires |b| == 4
    ensures |r| == 4
  {
    [b[3], b[2], b[1], b[0]]
  }

  /** The counter, most significant byte first. */
  function CountBytes(count: nat): (r: Bytes)
    ensures |r| == 4
  {
    Reversed4(PutLe32(count))
  }

  /** The time stamp, least significant byte first. */
  function StampBytes(tsc: bv64): (r: Bytes)
    ensures |r| == 8
  {
    var b := PutBe64(tsc);
    [b[7], b[6], b[5], b[4], b[3], b[2], b[1], b[0]]
  }

  /** `gen_nonce` at time `tsc`; a wrapped counter panics and nothing runs after it. */
  function Generate(g: Generator, tsc: bv64): Generator
  {
    if g.halted then g
    else
      var count := (g.count + 1) % TWO32;
      if count == 0 then Generator(count, true, g.issued)
      else Generator(count, false, g.issued + [CountBytes(count) + StampBytes(tsc)])
  }

  function Run(stamps: seq<bv64>): Generator
  {
    if stamps == [] then START else Generate(Run(stamps[..|stamps| - 1]), stamps[|stamps| - 1])
  }

  lemma CountInjective(m: nat, n: nat)
    requires m < TWO32 && n < TWO32 && CountBytes(m) == CountBytes(n)
    ensures m == n
  {
    hide PutLe32, Le32;
    var a, b := PutLe32(m), PutLe32(n);
    Le32Back(m);
    Le32Back(n);
    assert Reversed4(a)[0] == Reversed4(b)[0] && Reversed4(a)[1] == Reversed4(b)[1];
    assert Reversed4(a)[2] == Reversed4(b)[2] && Reversed4(a)[3] == Reversed4(b)[3];
    assert a == b;
  }

  /** The i-th nonce issued carries the number i + 1, and the generator halts exactly after 2^32 - 1 of them. */
  ghost predicate GenOk(g: Generator, calls: nat)
  {
    && (forall i | 0 <= i < |g.issued| :: g.issued[i][..4] == CountBytes(i + 1))
    && (g.halted <==> calls >= TWO32)
    && |g.issued| == (if g.halted then TWO32 - 1 else calls)
    && (!g.halted ==> g.count == calls)
  }

  lemma GenerateOk(g: Generator, calls: nat, tsc: bv64)
    requires GenOk(g, calls)
    ensures GenOk(Generate(g, tsc), calls + 1)
  {
    hide CountBytes, StampBytes;
    var nonce := CountBytes(calls + 1) + StampBytes(tsc);
    assert nonce[..4] == CountBytes(calls + 1);
  }

  lemma {:induction false} RunOk(stamps: seq<bv64>)
    ensures GenOk(Run(stamps), |stamps|)
  {
    hide Generate;
    if stamps != [] {
      RunOk(stamps[..|stamps| - 1]);
      GenerateOk(Run(stamps[..|stamps| - 1]), |stamps| - 1, stamps[|stamps| - 1]);
    }
  }

  /** Whatever the clock says, no nonce is issued twice; the generator has halted exactly when its counter wrapped,
      after it issued 2^32 - 1 of them. */
  lemma NonceTheorem(stamps: seq<bv64>)
    ensures var g := Run(stamps);
            && (forall i, j | 0 <= i < j < |g.issued| :: g.issued[i] != g.issued[j])
            && (g.halted <==> |stamps| >= TWO32)
            && |g.issued| == if g.halted then TWO32 - 1 else |stamps|
  {
    hide Run, CountBytes;
    RunOk(stamps);
    var g := Run(stamps);
    forall i, j | 0 <= i < j < |g.issued|
      ensures g.issued[i] != g.issued[j]
    {
      if CountBytes(i + 1) == CountBytes(j + 1) {
        CountInjective(i + 1, j + 1);
      }
    }
  }
}
