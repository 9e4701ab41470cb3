// Powers of two, shifts and the bit operations of the code, as functions on natural
// numbers.  Each of them works digit by digit, from the last binary digit up, and the
// lemmas say so: what a shift divides by, which numbers shift to a given one, what an
// exclusive-or and an or do to one digit and to all the digits above it.
module Bits {

  function Pow2(k: nat): (p: nat)
    ensures p >= 1
  {
    if k == 0 then 1 else 2 * Pow2(k - 1)
  }

  // x >> k
  function Shr(x: nat, k: nat): nat
  {
    if k == 0 then x else Shr(x, k - 1) / 2
  }

  // x << k
  function Shl(x: nat, k: nat): nat
  {
    x * Pow2(k)
  }

  function Xor(a: nat, b: nat): nat
    decreases a + b
  {
    if a == 0 && b == 0 then 0
    else 2 * Xor(a / 2, b / 2) + (if a % 2 == b % 2 then 0 else 1)
  }

  function Or(a: nat, b: nat): nat
    decreases a + b
  {
    if a == 0 && b == 0 then 0
    else 2 * Or(a / 2, b / 2) + (if a % 2 == 0 && b % 2 == 0 then 0 else 1)
  }

  lemma {:induction false} ShrHalf(x: nat, k: nat)
    ensures Shr(x / 2, k) == Shr(x, k) / 2 == Shr(x, k + 1)
  {
    if k > 0 {
      ShrHalf(x, k - 1);
    }
  }

  lemma DoubleProduct(j: nat, p: nat)
    ensures j * (2 * p) == 2 * (j * p) == (2 * j) * p
    ensures (2 * j + 1) * p == 2 * (j * p) + p
  {
  }

  lemma {:induction false} ShlHalf(x: nat, k: nat)
    requires k > 0
    ensures Shl(x, k) % 2 == 0 && Shl(x, k) / 2 == Shl(x, k - 1)
  {
    DoubleProduct(x, Pow2(k - 1));
    assert Shl(x, k) == 2 * Shl(x, k - 1);
  }

  // Xor with zero changes nothing, and with the same number leaves nothing.
  lemma {:induction false} XorZero(a: nat)
    ensures Xor(a, 0) == a
    ensures Xor(0, a) == a
  {
    if a > 0 {
      XorZero(a / 2);
    }
  }

  lemma {:induction false} OrZero(a: nat)
    ensures Or(a, 0) == a
  {
    if a > 0 {
      OrZero(a / 2);
    }
  }

  // Both operations work digit by digit.
  lemma XorDigit(a: nat, b: nat, da: nat, db: nat)
    requires da < 2 && db < 2
    ensures Xor(2 * a + da, 2 * b + db) == 2 * Xor(a, b) + (if da == db then 0 else 1)
  {
    assert (2 * a + da) / 2 == a && (2 * b + db) / 2 == b;
  }

  lemma OrDigit(a: nat, b: nat, da: nat, db: nat)
    requires da < 2 && db < 2
    ensures Or(2 * a + da, 2 * b + db) == 2 * Or(a, b) + (if da == 0 && db == 0 then 0 else 1)
  {
    assert (2 * a + da) / 2 == a && (2 * b + db) / 2 == b;
  }

  // x >> k is x divided by 2^k: the numbers that shift to j are exactly j*2^k .. j*2^k + 2^k - 1.
  lemma {:induction false} ShrRange(x: nat, k: nat, j: nat)
    ensures Shr(x, k) == j <==> j * Pow2(k) <= x < j * Pow2(k) + Pow2(k)
  {
    if k > 0 {
      DoubleProduct(j, Pow2(k - 1));
      ShrRange(x, k - 1, 2 * j);
      ShrRange(x, k - 1, 2 * j + 1);
      assert Shr(x, k) == Shr(x, k - 1) / 2;
      assert Shr(x, k) == j <==> Shr(x, k - 1) == 2 * j || Shr(x, k - 1) == 2 * j + 1;
    } else {
      assert j * Pow2(0) == j;
    }
  }

  lemma {:induction false} ShrBound(x: nat, d: nat, k: nat)
    requires k <= d && x < Pow2(d)
    ensures Shr(x, k) < Pow2(d - k)
  {
    if k > 0 {
      ShrBound(x, d, k - 1);
    }
  }

  lemma {:induction false} Pow2Monotone(a: nat, b: nat)
    requires a <= b
    ensures Pow2(a) <= Pow2(b)
    decreases b - a
  {
    if a < b {
      Pow2Monotone(a + 1, b);
    }
  }
}
