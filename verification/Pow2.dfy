/** Powers of two, alignment, and the exclusive or of a page offset with a block size. */
module Pow2 {

  function Pow(n: nat): (r: nat)
    ensures r >= 1
  {
    if n == 0 then 1 else 2 * Pow(n - 1)
  }

  lemma {:induction false} PowMonotone(m: nat, n: nat)
    requires m <= n
    ensures Pow(m) <= Pow(n)
  {
    if m < n { PowMonotone(m, n - 1); }
  }

  /** The low `o` bits of `x` are zero: the test `(x & (2^o - 1)) == 0`. */
  predicate Aligned(x: nat, o: nat)
  {
    o == 0 || (x % 2 == 0 && Aligned(x / 2, o - 1))
  }

  function Multiple(a: nat, o: nat): nat { a * Pow(o) }

  lemma {:induction false} AlignedQuotient(x: nat, o: nat) returns (a: nat)
    requires Aligned(x, o)
    ensures x == Multiple(a, o)
  {
    if o == 0 {
      a := x;
    } else {
      a := AlignedQuotient(x / 2, o - 1);
    }
  }

  lemma {:induction false} MultipleAligned(a: nat, o: nat)
    ensures Aligned(Multiple(a, o), o)
  {
    if o > 0 {
      MultipleAligned(a, o - 1);
      assert Multiple(a, o) == 2 * Multiple(a, o - 1);
    }
  }

  /** The bitwise and of two natural numbers. */
  function And(a: nat, b: nat): nat
  {
    if a == 0 || b == 0 then 0 else (if a % 2 == 1 && b % 2 == 1 then 1 else 0) + 2 * And(a / 2, b / 2)
  }

  lemma {:induction false} MaskAligned(x: nat, o: nat)
    ensures And(x, Pow(o) - 1) == 0 <==> Aligned(x, o)
  {
    if o > 0 {
      assert (Pow(o) - 1) / 2 == Pow(o - 1) - 1 && (Pow(o) - 1) % 2 == 1;
      if x == 0 {
        ZeroAligned(o);
      } else {
        MaskAligned(x / 2, o - 1);
      }
    }
  }

  /** The mask test of the code is divisibility by the block size. */
  lemma MaskIff(x: nat, o: nat)
    ensures And(x, Pow(o) - 1) == 0 <==> exists a: nat :: x == Multiple(a, o)
  {
    MaskAligned(x, o);
    if Aligned(x, o) {
      var _ := AlignedQuotient(x, o);
    }
    forall a: nat | x == Multiple(a, o)
      ensures Aligned(x, o)
    {
      MultipleAligned(a, o);
    }
  }

  lemma AlignedDouble(a: nat, o: nat)
    ensures Aligned(2 * a, o + 1) <==> Aligned(a, o)
  {
    assert (2 * a) / 2 == a;
  }

  lemma {:induction false} AlignedDown(x: nat, o: nat, k: nat)
    requires k <= o && Aligned(x, o)
    ensures Aligned(x, k)
  {
    if k > 0 { AlignedDown(x / 2, o - 1, k - 1); }
  }

  lemma {:induction false} AlignedSum(x: nat, y: nat, o: nat)
    requires Aligned(x, o) && Aligned(y, o)
    ensures Aligned(x + y, o) && (x >= y ==> Aligned(x - y, o))
  {
    if o > 0 {
      AlignedSum(x / 2, y / 2, o - 1);
      assert (x + y) / 2 == x / 2 + y / 2;
    }
  }

  lemma {:induction false} PowAligned(o: nat, k: nat)
    requires k <= o
    ensures Aligned(Pow(o), k)
  {
    if k > 0 {
      PowAligned(o - 1, k - 1);
      AlignedDouble(Pow(o - 1), k - 1);
    }
  }

  lemma {:induction false} ZeroAligned(o: nat)
    ensures Aligned(0, o)
  {
    if o > 0 { ZeroAligned(o - 1); }
  }

  /** Two distinct multiples of `2^o` are at least `2^o` apart. */
  lemma {:induction false} AlignedGap(x: nat, y: nat, o: nat)
    requires Aligned(x, o) && Aligned(y, o) && x < y
    ensures x + Pow(o) <= y
  {
    if o > 0 { AlignedGap(x / 2, y / 2, o - 1); }
  }

  /** Aligned blocks nest: a block that starts inside a block of at least its order lies inside it. */
  lemma Nested(x: nat, k: nat, y: nat, o: nat)
    requires k <= o && Aligned(x, k) && Aligned(y, o)
    requires y <= x < y + Pow(o)
    ensures x + Pow(k) <= y + Pow(o)
  {
    hide Aligned, Pow;
    AlignedDown(y, o, k);
    PowAligned(o, k);
    AlignedSum(y, Pow(o), k);
    AlignedGap(x, y + Pow(o), k);
  }

  /** The bitwise exclusive or of two natural numbers. */
  function Xor(a: nat, b: nat): (r: nat)
    decreases a + b
  {
    if a == 0 && b == 0 then 0
    else (if a % 2 == b % 2 then 0 else 1) + 2 * Xor(a / 2, b / 2)
  }

  lemma {:induction false} XorZero(a: nat)
    ensures Xor(a, 0) == a
  {
    if a > 0 { XorZero(a / 2); }
  }

  lemma XorDouble(a: nat, b: nat)
    ensures Xor(2 * a, 2 * b) == 2 * Xor(a, b)
  {
    assert (2 * a) / 2 == a && (2 * b) / 2 == b;
  }

  lemma XorOne(a: nat)
    ensures Xor(a, 1) == if a % 2 == 0 then a + 1 else a - 1
  {
    XorZero(a / 2);
    assert (1 as int) / 2 == 0;
  }

  /** The buddy of an aligned offset, as the allocator computes it: the other half of the block one order up. */
  lemma {:induction false} BuddyFacts(x: nat, o: nat)
    requires Aligned(x, o)
    ensures var y := Xor(x, Pow(o));
            && Aligned(y, o) && Xor(y, Pow(o)) == x
            && ((y == x + Pow(o) && Aligned(x, o + 1)) || (y == x - Pow(o) && Aligned(y, o + 1)))
  {
    if o == 0 {
      XorOne(x);
      XorOne(Xor(x, 1));
    } else {
      var h, m := x / 2, Pow(o - 1);
      BuddyFacts(h, o - 1);
      var g := Xor(h, m);
      assert x == 2 * h && Pow(o) == 2 * m;
      hide Xor, Aligned, Pow;
      XorDouble(h, m);
      XorDouble(g, m);
      AlignedDouble(g, o - 1);
      AlignedDouble(g, o);
      AlignedDouble(h, o);
    }
  }

  /** The two halves of an aligned block are aligned one order down and are each other's buddies. */
  lemma {:induction false} HalvesAreBuddies(x: nat, o: nat)
    requires Aligned(x, o + 1)
    ensures Aligned(x, o) && Aligned(x + Pow(o), o)
    ensures Xor(x, Pow(o)) == x + Pow(o) && Xor(x + Pow(o), Pow(o)) == x
  {
    assert Pow(o + 1) == 2 * Pow(o);
    hide Aligned, Pow, Xor;
    AlignedDown(x, o + 1, o);
    BuddyFacts(x, o);
    PowAligned(o, o);
    AlignedSum(x, Pow(o), o);
    if Xor(x, Pow(o)) != x + Pow(o) {
      AlignedGap(x - Pow(o), x, o + 1);
    }
  }
}
