/**
 The bitwise operations on unsigned numbers, defined bit by bit.
 */
module Bits {
  import opened Widths

  function Pow2(k: nat): (p: nat)
    ensures p > 0
  {
    if k == 0 then 1 else 2 * Pow2(k - 1)
  }

  function Xor(a: nat, b: nat): nat {
    if a == 0 && b == 0 then 0
    else (if a % 2 == b % 2 then 0 else 1) + 2 * Xor(a / 2, b / 2)
  }

  function Or(a: nat, b: nat): nat {
    if a == 0 && b == 0 then 0
    else (if a % 2 == 0 && b % 2 == 0 then 0 else 1) + 2 * Or(a / 2, b / 2)
  }

  lemma {:induction false} XorBound(k: nat, a: nat, b: nat)
    requires a < Pow2(k) && b < Pow2(k)
    ensures Xor(a, b) < Pow2(k)
  {
    if k > 0 { XorBound(k - 1, a / 2, b / 2); }
  }

  lemma {:induction false} OrBound(k: nat, a: nat, b: nat)
    requires a < Pow2(k) && b < Pow2(k)
    ensures Or(a, b) < Pow2(k)
  {
    if k > 0 { OrBound(k - 1, a / 2, b / 2); }
  }

  lemma {:induction false} OrZero(a: nat)
    ensures Or(a, 0) == a
  {
    if a > 0 { OrZero(a / 2); }
  }

  lemma {:induction false} XorInjective(a: nat, b: nat, c: nat)
    ensures Xor(a, c) == Xor(b, c) <==> a == b
    decreases a + b + c
  {
    if a + b + c > 0 && a != b {
      XorStep(a, c);
      XorStep(b, c);
      XorInjective(a / 2, b / 2, c / 2);
    }
  }

  /** The lowest bit and the rest. */
  lemma XorStep(a: nat, b: nat)
    ensures Xor(a, b) == (if a % 2 == b % 2 then 0 else 1) + 2 * Xor(a / 2, b / 2)
  {
  }

  /** Numbers that share no bit: `Or` puts one above the other. */
  lemma {:induction false} OrAbove(k: nat, a: nat, b: nat)
    requires b < Pow2(k)
    ensures Or(a * Pow2(k), b) == a * Pow2(k) + b
  {
    if k == 0 {
      OrZero(a);
    } else {
      var h := a * Pow2(k - 1);
      assert a * Pow2(k) == 2 * h;
      OrAbove(k - 1, a, b / 2);
    }
  }

  lemma HalfOfParts(k: nat, a: nat, b: nat)
    requires k > 0
    ensures (a * Pow2(k) + b) / 2 == a * Pow2(k - 1) + b / 2 && (a * Pow2(k) + b) % 2 == b % 2
  {
    var h := a * Pow2(k - 1);
    assert a * Pow2(k) == 2 * h;
  }

  /** `Xor` works on the two parts of a number apart. */
  lemma {:induction false} XorParts(k: nat, a: nat, b: nat, c: nat, d: nat)
    requires b < Pow2(k) && d < Pow2(k)
    ensures Xor(a * Pow2(k) + b, c * Pow2(k) + d) == Xor(a, c) * Pow2(k) + Xor(b, d)
  {
    if k > 0 {
      HalfOfParts(k, a, b);
      HalfOfParts(k, c, d);
      XorStep(a * Pow2(k) + b, c * Pow2(k) + d);
      XorStep(b, d);
      XorParts(k - 1, a, b / 2, c, d / 2);
      DoubledPart(Xor(a, c), Pow2(k - 1));
    }
  }

  lemma DoubledPart(x: nat, p: nat)
    ensures x * (2 * p) == 2 * (x * p)
  {
  }

  lemma XorHalves(a: nat, b: nat, c: nat, d: nat)
    requires b < UINT32 && d < UINT32
    ensures Xor(a * UINT32 + b, c * UINT32 + d) == Xor(a, c) * UINT32 + Xor(b, d)
  {
    Width32();
    XorParts(32, a, b, c, d);
  }

  lemma {:induction false} Pow2Double(k: nat, m: nat)
    ensures Pow2(k + m) == Pow2(k) * Pow2(m)
    decreases m
  {
    if m > 0 { Pow2Double(k, m - 1); }
  }

  lemma Width8()
    ensures Pow2(8) == 0x100
  {
    assert Pow2(4) == 16;
    Pow2Double(4, 4);
  }

  lemma Width32()
    ensures Pow2(32) == UINT32
  {
    Width8();
    Pow2Double(8, 8);
    Pow2Double(16, 16);
  }

  lemma Width64()
    ensures Pow2(64) == UINT64
  {
    Width32();
    Pow2Double(32, 32);
  }

  lemma Bounds64(a: nat, b: nat)
    requires a < UINT64 && b < UINT64
    ensures Xor(a, b) < UINT64 && Or(a, b) < UINT64
  {
    Width64();
    XorBound(64, a, b);
    OrBound(64, a, b);
  }

  /** Two halves put together. */
  lemma OrHalves(high: nat, low: nat)
    requires high < UINT32 && low < UINT32
    ensures Or(high * UINT32 % UINT64, low) == high * UINT32 + low
  {
    Width32();
    OrAbove(32, high, low);
    assert high * UINT32 < UINT64;
  }
}
