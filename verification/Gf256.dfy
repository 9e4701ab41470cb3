// The field of section 4.2 of FIPS 197: bytes under exclusive or and multiplication modulo
// x^8 + x^4 + x^3 + x + 1.  That every byte but zero has an inverse follows from the powers
// of x + 1, which are as many different bytes as there are non-zero ones.
module Gf256 {
  import opened BytePowers
  import opened ShiftAlgebra

  function Bytes(): Shift<Byte>
  {
    Shift(0, (a, b) => a ^ b, a => Xtime(a))
  }

  function BitsOf(b: Byte): seq<bool>
    decreases b
  {
    if b == 0 then [] else [b & 1 != 0] + BitsOf(b >> 1)
  }

  function Mul(a: Byte, b: Byte): Byte
  {
    Times(Bytes(), a, BitsOf(b))
  }

  lemma ShiftXor(a: Byte, b: Byte)
    ensures (a ^ b) << 1 == (a << 1) ^ (b << 1)
  {
  }

  lemma TopBit(a: Byte, b: Byte)
    ensures (a ^ b) & 0x80 != 0 <==> (a & 0x80 != 0) != (b & 0x80 != 0)
  {
  }

  lemma XorReduced(p: Byte, q: Byte, r: Byte)
    ensures (p ^ r) ^ q == (p ^ q) ^ r && p ^ (q ^ r) == (p ^ q) ^ r && (p ^ r) ^ (q ^ r) == p ^ q
  {
  }

  lemma XtimeXor(a: Byte, b: Byte)
    ensures Xtime(a ^ b) == Xtime(a) ^ Xtime(b)
  {
    ShiftXor(a, b);
    TopBit(a, b);
    XorReduced(a << 1, b << 1, 0x1b);
  }

  lemma AddIsXor(p: Byte, q: Byte)
    ensures Bytes().add(p, q) == p ^ q
  {
  }

  lemma XorExchange(p: Byte, q: Byte, r: Byte, s: Byte)
    ensures (p ^ q) ^ (r ^ s) == (p ^ r) ^ (q ^ s)
  {
  }

  lemma AddTwice(u: Byte, v: Byte, p: Byte, q: Byte, r: Byte, s: Byte)
    requires u == p ^ q && v == r ^ s
    ensures Bytes().add(Bytes().add(p, q), Bytes().add(r, s)) == u ^ v
  {
    AddIsXor(p, q);
    AddIsXor(r, s);
    AddIsXor(u, v);
  }

  lemma XorExchanges(p: Byte, q: Byte, r: Byte, s: Byte)
    ensures Exchanges(Bytes(), p, q, r, s)
  {
    AddTwice(p ^ q, r ^ s, p, q, r, s);
    AddTwice(p ^ r, q ^ s, p, r, q, s);
    XorExchange(p, q, r, s);
  }

  lemma XtimeLinear(p: Byte, q: Byte)
    ensures Linear(Bytes(), p, q)
  {
    XtimeXor(p, q);
    AddIsXor(p, q);
    AddIsXor(Xtime(p), Xtime(q));
  }

  lemma BytesLawful()
    ensures Lawful(Bytes())
  {
    forall p, q, r, s ensures Exchanges(Bytes(), p, q, r, s) {
      XorExchanges(p, q, r, s);
    }
    forall p, q ensures Linear(Bytes(), p, q) {
      XtimeLinear(p, q);
    }
    forall p ensures HasZero(Bytes(), p) {
    }
  }

  lemma DigitHalf(b: Byte)
    ensures b == (if b & 1 != 0 then 1 else 0) ^ Xtime(b >> 1)
  {
  }

  lemma TimesOneStep(b: Byte)
    requires b != 0 && Times(Bytes(), 1, BitsOf(b >> 1)) == b >> 1
    ensures Times(Bytes(), 1, BitsOf(b)) == b
  {
    BytesLawful();
    TimesShift(Bytes(), 1, BitsOf(b >> 1));
    assert BitsOf(b)[1..] == BitsOf(b >> 1);
    DigitHalf(b);
  }

  // A byte is one, multiplied by it.
  lemma {:induction false} TimesOne(b: Byte)
    ensures Times(Bytes(), 1, BitsOf(b)) == b
    decreases b
  {
    if b != 0 {
      TimesOne(b >> 1);
      TimesOneStep(b);
    }
  }

  lemma MulCommutes(a: Byte, b: Byte)
    ensures Mul(a, b) == Mul(b, a)
  {
    BytesLawful();
    TimesOne(a);
    TimesOne(b);
    TimesCommute(Bytes(), 1, BitsOf(a), BitsOf(b));
  }

  lemma MulAssociates(a: Byte, b: Byte, c: Byte)
    ensures Mul(Mul(a, b), c) == Mul(a, Mul(b, c))
  {
    BytesLawful();
    MulCommutes(a, Mul(b, c));
    TimesCommute(Bytes(), b, BitsOf(c), BitsOf(a));
    MulCommutes(a, b);
  }

  lemma MulDistributes(a: Byte, b: Byte, c: Byte)
    ensures Mul(a ^ b, c) == Mul(a, c) ^ Mul(b, c)
    ensures Mul(c, a ^ b) == Mul(c, a) ^ Mul(c, b)
  {
    BytesLawful();
    TimesSum(Bytes(), a, b, BitsOf(c));
    MulCommutes(a, c);
    MulCommutes(b, c);
    MulCommutes(a ^ b, c);
  }

  lemma MulUnits(a: Byte)
    ensures Mul(a, 1) == Mul(1, a) == a
    ensures Mul(a, 0) == Mul(0, a) == 0
  {
    TimesOne(a);
    MulCommutes(a, 1);
    MulCommutes(a, 0);
  }

  // ------------------------------------------------------------------ inverses

  lemma MulStep(a: Byte, b: Byte)
    ensures Mul(a, b) == (if b & 1 != 0 then a else 0) ^ Mul(Xtime(a), b >> 1)
  {
    if b != 0 {
      assert BitsOf(b)[1..] == BitsOf(b >> 1);
      AddIsXor(if b & 1 != 0 then a else 0, Mul(Xtime(a), b >> 1));
    }
  }

  // The example of section 4.2 of FIPS 197.
  lemma StandardExample()
    ensures Mul(0x57, 0x83) == 0xc1
  {
    MulUnits(0x38);
    MulStep(0x1c, 2);
    MulStep(0x0e, 4);
    MulStep(0x07, 8);
    MulStep(0x8e, 0x10);
    MulStep(0x47, 0x20);
    assert Mul(0x47, 0x20) == 0x38;
    MulStep(0xae, 0x41);
    assert Mul(0xae, 0x41) == 0x96;
    MulStep(0x57, 0x83);
  }

  lemma TripleOfProduct(u: Byte, w: Byte)
    ensures Mul(Triple(u), w) == Triple(Mul(u, w))
  {
    BytesLawful();
    MulDistributes(Xtime(u), u, w);
    TimesShift(Bytes(), u, BitsOf(w));
  }

  function Power(n: nat): Byte
  {
    if n == 0 then 1 else Triple(Power(n - 1))
  }

  lemma {:induction false} PowerWalk(n: nat)
    ensures Walk(1, n) == Power(n)
  {
    if n > 0 {
      PowerWalk(n - 1);
      WalkOn(1, n - 1, 1);
    }
  }

  lemma {:induction false} PowerSum(n: nat, m: nat)
    ensures Mul(Power(n), Power(m)) == Power(n + m)
  {
    if n == 0 {
      MulUnits(Power(m));
    } else {
      PowerSum(n - 1, m);
      TripleOfProduct(Power(n - 1), Power(m));
    }
  }

  lemma {:induction false} ClearAt(n: nat, m: nat)
    requires Clear(1, n) && 0 < m <= n
    ensures Power(m) != 1
  {
    PowerWalk(m);
    PowerWalk(m - 1);
    ClearFrom(1, n, m);
  }

  lemma {:induction false} ClearFrom(v: Byte, n: nat, m: nat)
    requires Clear(v, n) && 0 < m <= n
    ensures Walk(v, m) != 1
    decreases m
  {
    if m > 1 {
      ClearFrom(Triple(v), n - 1, m - 1);
    }
  }

  // Every power has an inverse, so none is zero ...
  lemma PowerInverse(i: nat, n: nat)
    requires i <= n == 255
    ensures Mul(Power(n - i), Power(i)) == 1 && Power(i) != 0
  {
    Cycle(n);
    PowerWalk(n);
    PowerSum(n - i, i);
    MulUnits(Power(n - i));
  }

  lemma UnitFactor(a: Byte, i: Byte, d: Byte)
    requires Mul(i, a) == 1 && d != 1
    ensures Mul(a, d) != a
  {
    MulAssociates(i, a, d);
    MulUnits(d);
  }

  lemma NotOneAgain(m: nat, n: nat)
    requires 0 < m < n == 255
    ensures Power(m) != 1
  {
    Cycle(n);
    ClearAt(n - 1, m);
  }

  // ... and the first 255 are different.
  lemma PowersDiffer(i: nat, d: nat, n: nat)
    requires 0 < d && i + d < n == 255
    ensures Power(i) != Power(i + d)
  {
    assert Mul(Power(i), Power(d)) != Power(i) by {
      NotOneAgain(d, n);
      PowerInverse(i, n);
      UnitFactor(Power(i), Power(n - i), Power(d));
    }
    PowerSum(i, d);
  }

  ghost function PowersBelow(n: nat): set<Byte>
  {
    set i: nat | i < n :: Power(i)
  }

  lemma {:induction false} CountPowers(n: nat)
    requires n <= 255
    ensures |PowersBelow(n)| == n
  {
    if n > 0 {
      CountPowers(n - 1);
      forall i: nat | i < n - 1 ensures Power(i) != Power(n - 1) {
        PowersDiffer(i, n - 1 - i, 255);
      }
      assert PowersBelow(n) == PowersBelow(n - 1) + {Power(n - 1)};
    }
  }

  // The number that the bits of a byte spell.
  function Number(b: Byte): nat
  {
    (if b & 1 != 0 then 1 else 0) + (if b & 2 != 0 then 2 else 0) +
    (if b & 4 != 0 then 4 else 0) + (if b & 8 != 0 then 8 else 0) +
    (if b & 16 != 0 then 16 else 0) + (if b & 32 != 0 then 32 else 0) +
    (if b & 64 != 0 then 64 else 0) + (if b & 128 != 0 then 128 else 0)
  }

  lemma NumberNext(b: Byte)
    requires Number(b) < 255
    ensures Number(b + 1) == Number(b) + 1
  {
  }

  lemma NumberInjective(a: Byte, b: Byte)
    requires Number(a) == Number(b)
    ensures a == b
  {
  }

  function ByteOf(i: nat): (b: Byte)
    requires i < 256
    ensures Number(b) == i
  {
    if i == 0 then 0
    else
      var p := ByteOf(i - 1);
      NumberNext(p);
      p + 1
  }

  ghost function NonZeroBelow(k: nat): set<Byte>
    requires k <= 256
  {
    set i: nat | 0 < i < k :: ByteOf(i)
  }

  lemma NonZeroNumber(b: Byte)
    requires b != 0
    ensures 0 < Number(b) < 256 && ByteOf(Number(b)) == b && b in NonZeroBelow(256)
  {
    NumberInjective(ByteOf(Number(b)), b);
  }

  lemma {:induction false} CountNonZero(k: nat)
    requires 0 < k <= 256
    ensures |NonZeroBelow(k)| < k
  {
    if k > 1 {
      CountNonZero(k - 1);
      assert NonZeroBelow(k) == NonZeroBelow(k - 1) + {ByteOf(k - 1)};
    }
  }

  lemma SubsetOfSameSize<T>(s: set<T>, t: set<T>)
    requires s <= t && |t| <= |s|
    ensures s == t
  {
    assert t == s + (t - s) && s !! (t - s);
  }

  // The powers are all the non-zero bytes, so every one of these has an inverse.
  lemma InverseExists(a: Byte) returns (x: Byte)
    requires a != 0
    ensures Mul(a, x) == 1
  {
    forall i: nat | i < 255 ensures Power(i) in NonZeroBelow(256) {
      PowerInverse(i, 255);
      NonZeroNumber(Power(i));
    }
    CountPowers(255);
    CountNonZero(256);
    SubsetOfSameSize(PowersBelow(255), NonZeroBelow(256));
    NonZeroNumber(a);
    var i: nat :| i < 255 && Power(i) == a;
    PowerInverse(i, 255);
    x := Power(255 - i);
    MulCommutes(a, x);
  }
}
