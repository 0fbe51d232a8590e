/** Bits of natural numbers: what shifts, masks and bitwise or do. */
module Bits {
  function Pow2(k: nat): (p: nat)
    ensures p > 0
  {
    if k == 0 then 1 else 2 * Pow2(k - 1)
  }

  /** (v >> k) & 1 == 1. */
  predicate Bit(v: nat, k: nat) {
    if k == 0 then v % 2 == 1 else Bit(v / 2, k - 1)
  }

  /** Bitwise or. */
  function Or(a: nat, b: nat): nat {
    if a == 0 && b == 0 then 0
    else 2 * Or(a / 2, b / 2) + (if a % 2 == 1 || b % 2 == 1 then 1 else 0)
  }

  lemma {:induction false} OrZero(b: nat)
    ensures Or(0, b) == b
  {
    if b != 0 { OrZero(b / 2); }
  }

  lemma {:induction false} OrEven(a: nat, k: nat)
    ensures Or(a, 2 * k) == 2 * Or(a / 2, k) + a % 2
  {
  }

  /** A number below 16 and one with a clear low nibble do not disturb each other. */
  lemma {:induction false} OrNibble(t: nat, f: nat)
    requires t < 16 && f % 16 == 0
    ensures Or(t, f) == t + f
  {
    hide Or;
    var k := f / 16;
    OrZero(k);
    OrEven(t / 8, k);
    assert t / 8 / 2 == 0;
    assert Or(t / 8, 2 * k) == t / 8 + 2 * k;
    OrEven(t / 4, 2 * k);
    assert t / 4 / 2 == t / 8;
    assert Or(t / 4, 4 * k) == t / 4 + 4 * k;
    OrEven(t / 2, 4 * k);
    assert t / 2 / 2 == t / 4;
    assert Or(t / 2, 8 * k) == t / 2 + 8 * k;
    OrEven(t, 8 * k);
    assert f == 2 * (8 * k);
  }

  lemma {:induction false} NoBits(k: nat)
    ensures !Bit(0, k)
  {
    if k != 0 { NoBits(k - 1); }
  }

  lemma {:induction false} OrBit(a: nat, b: nat, k: nat)
    ensures Bit(Or(a, b), k) == (Bit(a, k) || Bit(b, k))
    decreases k
  {
    if a == 0 && b == 0 {
      NoBits(k);
    } else if k != 0 {
      assert Or(a, b) / 2 == Or(a / 2, b / 2);
      OrBit(a / 2, b / 2, k - 1);
    }
  }

  lemma {:induction false} OrBound(a: nat, b: nat, n: nat)
    requires a < Pow2(n) && b < Pow2(n)
    ensures Or(a, b) < Pow2(n)
  {
    if n != 0 && !(a == 0 && b == 0) { OrBound(a / 2, b / 2, n - 1); }
  }

  lemma {:induction false} PowerBit(n: nat, k: nat)
    ensures Bit(Pow2(n), k) == (n == k)
    decreases k
  {
    if k == 0 {
    } else if n == 0 {
      assert 1 / 2 == 0;
      NoBits(k - 1);
    } else {
      assert Pow2(n) / 2 == Pow2(n - 1);
      PowerBit(n - 1, k - 1);
    }
  }

  lemma {:induction false} PowerBound(k: nat, n: nat)
    requires k < n
    ensures Pow2(k) < Pow2(n)
  {
    if k + 1 < n { PowerBound(k, n - 1); }
  }

  /** Setting one bit changes that bit only. */
  lemma {:induction false} SetBit(v: nat, j: nat, n: nat, k: nat)
    requires v < Pow2(n) && j < n
    ensures Or(v, Pow2(j)) < Pow2(n)
    ensures Bit(Or(v, Pow2(j)), k) == (Bit(v, k) || k == j)
  {
    PowerBound(j, n);
    OrBound(v, Pow2(j), n);
    OrBit(v, Pow2(j), k);
    PowerBit(j, k);
  }

  /** Numbers below a power of two are their bits. */
  lemma {:induction false} SameBits(a: nat, b: nat, n: nat)
    requires a < Pow2(n) && b < Pow2(n)
    requires forall k :: 0 <= k < n ==> Bit(a, k) == Bit(b, k)
    ensures a == b
  {
    if n != 0 {
      assert Bit(a, 0) == Bit(b, 0);
      forall k | 0 <= k < n - 1 ensures Bit(a / 2, k) == Bit(b / 2, k) {
        assert Bit(a, k + 1) == Bit(b, k + 1);
      }
      SameBits(a / 2, b / 2, n - 1);
    }
  }

  /** The number whose bits, most significant first, are given. */
  function Value(bits: seq<bool>): (v: nat)
    ensures v < Pow2(|bits|)
  {
    if bits == [] then 0
    else 2 * Value(bits[..|bits| - 1]) + (if bits[|bits| - 1] then 1 else 0)
  }

  lemma {:induction false} ValueBit(bits: seq<bool>, k: nat)
    requires k < |bits|
    ensures Bit(Value(bits), k) == bits[|bits| - 1 - k]
  {
    if k != 0 {
      ValueBit(bits[..|bits| - 1], k - 1);
      assert Value(bits) / 2 == Value(bits[..|bits| - 1]);
    }
  }

  /** a << n | b, for b of n bits. */
  lemma {:induction false} Concat(a: nat, b: nat, n: nat, k: nat)
    requires b < Pow2(n)
    ensures Bit(a * Pow2(n) + b, k) == if k < n then Bit(b, k) else Bit(a, k - n)
    decreases n
  {
    if n != 0 {
      var t := a * Pow2(n - 1);
      assert a * Pow2(n) == 2 * t;
      assert (2 * t + b) / 2 == t + b / 2 && (2 * t + b) % 2 == b % 2;
      if k > 0 { Concat(a, b / 2, n - 1, k - 1); }
    } else {
      assert a * 1 + 0 == a;
    }
  }

  lemma {:induction false} AllOnes(n: nat, k: nat)
    requires k < n
    ensures Bit(Pow2(n) - 1, k)
  {
    assert (Pow2(n) - 1) / 2 == Pow2(n - 1) - 1 && (Pow2(n) - 1) % 2 == 1;
    if k > 0 { AllOnes(n - 1, k - 1); }
  }

  lemma {:induction false} Literals()
    ensures Pow2(13) == 8192 && Pow2(14) == 16384 && Pow2(16) == 65536
  {
    assert Pow2(4) == 16 && Pow2(8) == 256 && Pow2(12) == 4096;
  }
}
