/** Multiplication in GF(2^8), section 4.2 of FIPS 197: the shift-and-add loop against the reduced polynomial
    product. */
module Gf8 {

  /** Addition of polynomials over GF(2), named so that proofs can treat it as a symbol. */
  function Plus(p: bv16, q: bv16): bv16 { p ^ q }

  function Pick(b: bv16, a: bv16): bv16 { if b & 1 != 0 then a else 0 }

  /** The product of the polynomial `a` and the lowest `n` coefficients of `b`: the sum of a * x^k over the set
      bits k. */
  function Product(a: bv16, b: bv16, n: nat): bv16
    decreases n
  {
    if n == 0 then 0 else Plus(Pick(b, a), Product(a << 1, b >> 1, n - 1))
  }

  /** Removing a coefficient above degree 7 by adding a multiple of the field polynomial. */
  function Clear(p: bv16, top: bv16, multiple: bv16): bv16
  {
    if p & top != 0 then Plus(p, multiple) else p
  }

  /** The remainder modulo x^8 + x^4 + x^3 + x + 1, for products of degree at most 14. */
  function Reduce(p: bv16): bv16
  {
    var p14 := Clear(p, 0x4000, 0x46c0);
    var p13 := Clear(p14, 0x2000, 0x2360);
    var p12 := Clear(p13, 0x1000, 0x11b0);
    var p11 := Clear(p12, 0x0800, 0x08d8);
    var p10 := Clear(p11, 0x0400, 0x046c);
    var p9 := Clear(p10, 0x0200, 0x0236);
    Clear(p9, 0x0100, 0x011b)
  }

  function Low(p: bv16): bv8 { (p & 0xFF) as bv8 }

  /** The field product of `a` and the lowest `n` coefficients of `b`. */
  function TimesBits(a: bv8, b: bv8, n: nat): bv8
  {
    Low(Reduce(Product(a as bv16, b as bv16, n)))
  }

  function Times(a: bv8, b: bv8): bv8 { TimesBits(a, b, 8) }

  /** Multiplication by x. */
  function Xtime(a: bv8): bv8 { (a << 1) ^ (if a & 0x80 != 0 then 0x1b else 0) }

  // ---------------------------------------------------------------- algebra

  predicate Single(top: bv16)
  {
    || top == 0x4000 || top == 0x2000 || top == 0x1000 || top == 0x0800 || top == 0x0400 || top == 0x0200
    || top == 0x0100
  }

  lemma TopBit(p: bv16, q: bv16, top: bv16)
    requires Single(top)
    ensures Plus(p, q) & top != 0 <==> (p & top != 0) != (q & top != 0)
  {
  }

  lemma ClearLinear(p: bv16, q: bv16, top: bv16, m: bv16)
    requires Single(top)
    ensures Clear(Plus(p, q), top, m) == Plus(Clear(p, top, m), Clear(q, top, m))
  {
    hide Plus;
    TopBit(p, q, top);
    Swap(p, q, m);
    Assoc(p, q, m);
    Cancel(p, q, m);
  }

  lemma Assoc(a: bv16, b: bv16, c: bv16)
    ensures Plus(Plus(a, b), c) == Plus(a, Plus(b, c))
  {
  }

  lemma Commute(a: bv16, b: bv16)
    ensures Plus(a, b) == Plus(b, a)
  {
  }

  lemma Swap(a: bv16, b: bv16, c: bv16)
    ensures Plus(Plus(a, b), c) == Plus(Plus(a, c), b)
  {
    hide Plus;
    Assoc(a, b, c);
    Commute(b, c);
    Assoc(a, c, b);
  }

  lemma Cancel(a: bv16, b: bv16, m: bv16)
    ensures Plus(Plus(a, m), Plus(b, m)) == Plus(a, b)
  {
    hide Plus;
    Assoc(Plus(a, m), b, m);
    Swap(a, m, b);
    Assoc(Plus(a, b), m, m);
    PlusZero(m);
    PlusZero(Plus(a, b));
  }

  lemma ReduceLinear(p: bv16, q: bv16)
    ensures Reduce(Plus(p, q)) == Plus(Reduce(p), Reduce(q))
  {
    hide Clear, Plus;
    var p14, q14 := Clear(p, 0x4000, 0x46c0), Clear(q, 0x4000, 0x46c0);
    var p13, q13 := Clear(p14, 0x2000, 0x2360), Clear(q14, 0x2000, 0x2360);
    var p12, q12 := Clear(p13, 0x1000, 0x11b0), Clear(q13, 0x1000, 0x11b0);
    var p11, q11 := Clear(p12, 0x0800, 0x08d8), Clear(q12, 0x0800, 0x08d8);
    var p10, q10 := Clear(p11, 0x0400, 0x046c), Clear(q11, 0x0400, 0x046c);
    var p9, q9 := Clear(p10, 0x0200, 0x0236), Clear(q10, 0x0200, 0x0236);
    ClearLinear(p, q, 0x4000, 0x46c0);
    ClearLinear(p14, q14, 0x2000, 0x2360);
    ClearLinear(p13, q13, 0x1000, 0x11b0);
    ClearLinear(p12, q12, 0x0800, 0x08d8);
    ClearLinear(p11, q11, 0x0400, 0x046c);
    ClearLinear(p10, q10, 0x0200, 0x0236);
    ClearLinear(p9, q9, 0x0100, 0x011b);
  }

  lemma Regroup(a: bv16, b: bv16, c: bv16, d: bv16)
    ensures Plus(Plus(a, b), Plus(c, d)) == Plus(Plus(a, c), Plus(b, d))
  {
    hide Plus;
    Assoc(Plus(a, b), c, d);
    Swap(a, b, c);
    Assoc(Plus(a, c), b, d);
  }

  lemma PickLinear(c: bv16, a: bv16, b: bv16)
    ensures Pick(c, Plus(a, b)) == Plus(Pick(c, a), Pick(c, b))
  {
    hide Plus;
    PlusZero(0);
  }

  lemma ShiftLinear(a: bv16, b: bv16)
    ensures Plus(a, b) << 1 == Plus(a << 1, b << 1)
  {
    hide Plus;
    PlusIsXor(a, b);
    PlusIsXor(a << 1, b << 1);
    ShiftXor(a, b);
  }

  lemma PlusIsXor(a: bv16, b: bv16)
    ensures Plus(a, b) == a ^ b
  {
  }

  lemma ShiftXor(a: bv16, b: bv16)
    ensures (a ^ b) << 1 == (a << 1) ^ (b << 1)
  {
  }

  lemma {:induction false} ProductLinear(a: bv16, b: bv16, c: bv16, n: nat)
    ensures Product(Plus(a, b), c, n) == Plus(Product(a, c, n), Product(b, c, n))
    decreases n
  {
    hide Plus, Pick;
    PlusZero(0);
    if n > 0 {
      PickLinear(c, a, b);
      ShiftLinear(a, b);
      ProductLinear(a << 1, b << 1, c >> 1, n - 1);
      Regroup(Pick(c, a), Pick(c, b), Product(a << 1, c >> 1, n - 1), Product(b << 1, c >> 1, n - 1));
    }
  }

  lemma PlusZero(p: bv16)
    ensures Plus(p, 0) == p && Plus(0, p) == p && Plus(p, p) == 0
  {
  }

  lemma ReduceZero()
    ensures Reduce(0) == 0
  {
  }

  /** Multiples of the field polynomial by a power of x. */
  predicate Multiple(m: bv16, n: nat)
  {
    || (m == 0x011b && n <= 7) || (m == 0x0236 && n <= 6) || (m == 0x046c && n <= 5) || (m == 0x08d8 && n <= 4)
    || (m == 0x11b0 && n <= 3) || (m == 0x2360 && n <= 2) || (m == 0x46c0 && n <= 1) || n == 0
  }

  lemma MultipleFacts(m: bv16, n: nat)
    requires Multiple(m, n) && n > 0
    ensures Reduce(m) == 0 && Multiple(m << 1, n - 1)
  {
  }

  /** Every multiple of the field polynomial reduces to zero. */
  lemma {:induction false} ModulusVanishes(m: bv16, c: bv16, n: nat)
    requires Multiple(m, n)
    ensures Reduce(Product(m, c, n)) == 0
    decreases n
  {
    hide Plus, Reduce, Multiple;
    ReduceZero();
    PlusZero(0);
    if n > 0 {
      MultipleFacts(m, n);
      ModulusVanishes(m << 1, c >> 1, n - 1);
      ReduceLinear(Pick(c, m), Product(m << 1, c >> 1, n - 1));
    }
  }

  lemma {:induction false} NothingTimes(c: bv16, n: nat)
    ensures Product(0, c, n) == 0
    decreases n
  {
    if n > 0 {
      NothingTimes(c >> 1, n - 1);
    }
  }

  lemma ReduceSmall(a: bv8)
    ensures Reduce(a as bv16) == a as bv16 && Low(a as bv16) == a
  {
  }

  lemma LowByte(p: bv16, q: bv16)
    ensures Low(Plus(p, q)) == Xor(Low(p), Low(q))
  {
  }

  lemma Halves(a: bv8, b: bv8)
    ensures (b as bv16) >> 1 == (b >> 1) as bv16
    ensures (a as bv16) << 1 == Plus(Xtime(a) as bv16, if a & 0x80 != 0 then 0x11b else 0)
    ensures Pick(b as bv16, a as bv16) == PickByte(b, a) as bv16
  {
  }

  /** Addition in the field. */
  function Xor(a: bv8, b: bv8): bv8 { a ^ b }

  function PickByte(b: bv8, a: bv8): bv8 { if b & 1 != 0 then a else 0 }

  /** The carry out of the top reduces to nothing. */
  lemma DoubleInside(a: bv8, c: bv16, n: nat)
    requires n <= 7
    ensures Reduce(Product((a as bv16) << 1, c, n)) == Reduce(Product(Xtime(a) as bv16, c, n))
  {
    hide Plus, Reduce, Product, Xtime;
    var over: bv16 := if a & 0x80 != 0 then 0x11b else 0;
    Halves(a, 0);
    ProductLinear(Xtime(a) as bv16, over, c, n);
    ModulusVanishes(0x11b, c, n);
    NothingTimes(c, n);
    ReduceZero();
    ReduceLinear(Product(Xtime(a) as bv16, c, n), Product(over, c, n));
    PlusZero(Reduce(Product(Xtime(a) as bv16, c, n)));
  }

  /** What one turn of the loop does: the low bit of `b` adds `a`, then `a` doubles and `b` halves. */
  lemma Peel(a: bv8, b: bv8, n: nat)
    requires 0 < n <= 8
    ensures TimesBits(a, b, n) == Xor(PickByte(b, a), TimesBits(Xtime(a), b >> 1, n - 1))
  {
    hide Xor, Plus, Reduce, Low, Pick, PickByte, Xtime;
    var first := PickByte(b, a);
    Halves(a, b);
    DoubleInside(a, (b >> 1) as bv16, n - 1);
    ReduceLinear(first as bv16, Product((a as bv16) << 1, (b >> 1) as bv16, n - 1));
    ReduceSmall(first);
    LowByte(first as bv16, Reduce(Product(Xtime(a) as bv16, (b >> 1) as bv16, n - 1)));
  }

  lemma NoBits(a: bv8, b: bv8)
    ensures TimesBits(a, b, 0) == 0
  {
    hide Plus, Reduce;
    ReduceZero();
  }

  lemma {:induction false} NoneLeft(a: bv8, n: nat)
    requires n <= 8
    ensures TimesBits(a, 0, n) == 0
    decreases n
  {
    hide TimesBits, Xtime;
    NoBits(a, 0);
    if n > 0 {
      Peel(a, 0, n);
      NoneLeft(Xtime(a), n - 1);
    }
  }

  lemma TimesTwoThree(a: bv8)
    ensures Times(a, 2) == Xtime(a) && Times(a, 3) == Xor(a, Xtime(a))
  {
    hide TimesBits, Xtime, Xor;
    Peel(a, 2, 8);
    Peel(a, 3, 8);
    Peel(Xtime(a), 1, 7);
    NoneLeft(Xtime(Xtime(a)), 6);
    XorZero(Xtime(a));
  }

  lemma XorZero(a: bv8)
    ensures Xor(a, 0) == a && Xor(0, a) == a
  {
  }

  /** The eight turns of the loop, written out. */
  function EightTurns(a: bv8, b: bv8): bv8
  {
    var a1 := Xtime(a); var b1 := b >> 1;
    var a2 := Xtime(a1); var b2 := b1 >> 1;
    var a3 := Xtime(a2); var b3 := b2 >> 1;
    var a4 := Xtime(a3); var b4 := b3 >> 1;
    var a5 := Xtime(a4); var b5 := b4 >> 1;
    var a6 := Xtime(a5); var b6 := b5 >> 1;
    var a7 := Xtime(a6); var b7 := b6 >> 1;
    Xor(PickByte(b, a), Xor(PickByte(b1, a1), Xor(PickByte(b2, a2), Xor(PickByte(b3, a3),
    Xor(PickByte(b4, a4), Xor(PickByte(b5, a5), Xor(PickByte(b6, a6), PickByte(b7, a7))))))))
  }

  lemma TurnsAreTimes(a: bv8, b: bv8)
    ensures Times(a, b) == EightTurns(a, b)
  {
    hide TimesBits, Xtime, Xor, PickByte;
    var a1, b1 := Xtime(a), b >> 1;
    var a2, b2 := Xtime(a1), b1 >> 1;
    var a3, b3 := Xtime(a2), b2 >> 1;
    var a4, b4 := Xtime(a3), b3 >> 1;
    var a5, b5 := Xtime(a4), b4 >> 1;
    var a6, b6 := Xtime(a5), b5 >> 1;
    var a7, b7 := Xtime(a6), b6 >> 1;
    Peel(a, b, 8);
    Peel(a1, b1, 7);
    Peel(a2, b2, 6);
    Peel(a3, b3, 5);
    Peel(a4, b4, 4);
    Peel(a5, b5, 3);
    Peel(a6, b6, 2);
    Peel(a7, b7, 1);
    NoBits(Xtime(a7), b7 >> 1);
    XorZero(PickByte(b7, a7));
  }

  lemma TwoTimes(a: bv8)
    ensures Times(2, a) == Xtime(a)
  {
    hide Times;
    TurnsAreTimes(2, a);
  }

  lemma ThreeTimes(a: bv8)
    ensures Times(3, a) == Xor(a, Xtime(a))
  {
    hide Times;
    TurnsAreTimes(3, a);
  }

  // ---------------------------------------------------------------- the loop

  /** `gf_mul` of crypto/aes_gcm.c and `gmul` of aes256.c: the same loop. */
  method Mul(x: bv8, y: bv8) returns (p: bv8)
    ensures p == Times(x, y)
  {
    hide TimesBits, Xor;
    var a, b := x, y;
    p := 0;
    XorZero(Times(x, y));
    var i := 0;
    while i < 8
      invariant 0 <= i <= 8
      invariant Xor(p, TimesBits(a, b, 8 - i)) == Times(x, y)
    {
      Peel(a, b, 8 - i);
      XorZero(p);
      XorZero(TimesBits(Xtime(a), b >> 1, 8 - i - 1));
      XorAssoc(p, a, TimesBits(Xtime(a), b >> 1, 8 - i - 1));
      if b & 1 != 0 {
        p := Xor(p, a);
      }
      var hi := a & 0x80;
      a := a << 1;
      if hi != 0 {
        a := a ^ 0x1b;
      }
      b := b >> 1;
      i := i + 1;
    }
    NoBits(a, b);
    XorZero(p);
  }

  lemma XorAssoc(a: bv8, b: bv8, c: bv8)
    ensures Xor(Xor(a, b), c) == Xor(a, Xor(b, c))
  {
  }
}
