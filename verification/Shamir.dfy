// Secret sharing over GF(256): gfMul, gfInv, shamirSplit and shamirCombine, and what any k of the
// shares, or fewer, tell about the secret.
module Shamir {
  import opened BytePowers
  import opened ShiftAlgebra
  import opened Gf256
  import opened Interpolation
  import opened KeyTree

  // ------------------------------------------------------------------ arithmetic of the client

  // One shift of the running factor, in the nine bits it needs.
  method ShiftWide(a: bv16) returns (w: bv16)
    requires a < 0x100
    ensures w < 0x100 && w as Byte == Xtime(a as Byte)
  {
    w := a << 1;
    if w & 0x100 != 0 {
      w := w ^ 0x11b;
    }
  }

  lemma XorStep(p: Byte, digit: Byte, rest: Byte)
    ensures (p ^ digit) ^ rest == p ^ (digit ^ rest)
  {
  }

  // What has been added up and what is still to be added make the product.
  ghost predicate Adds(p: Byte, a: Byte, b: Byte, product: Byte)
  {
    p ^ Mul(a, b) == product
  }

  lemma AddsStep(p: Byte, a: Byte, b: Byte, product: Byte)
    requires Adds(p, a, b, product)
    ensures Adds(p ^ (if b & 1 != 0 then a else 0), Xtime(a), b >> 1, product)
  {
    MulStep(a, b);
    XorStep(p, if b & 1 != 0 then a else 0, Mul(Xtime(a), b >> 1));
  }

  lemma AddsEnds(p: Byte, a: Byte, product: Byte)
    ensures Adds(0, a, p, product) <==> Mul(a, p) == product
    ensures Adds(p, a, 0, product) ==> p == product
  {
  }

  // One digit of the second factor.
  method AddDigit(p: Byte, a: Byte, b: Byte, ghost product: Byte) returns (q: Byte)
    requires Adds(p, a, b, product)
    ensures Adds(q, Xtime(a), b >> 1, product)
  {
    AddsStep(p, a, b, product);
    q := if b & 1 != 0 then p ^ a else p;
    assert p ^ 0 == p;
  }

  method GfMul(a: Byte, b: Byte) returns (p: Byte)
    ensures p == Mul(a, b)
  {
    p := 0;
    var wide, rest := a as bv16, b;
    AddsEnds(b, a, Mul(a, b));
    while rest != 0
      invariant wide < 0x100 && Adds(p, wide as Byte, rest, Mul(a, b))
      decreases rest
    {
      p := AddDigit(p, wide as Byte, rest, Mul(a, b));
      wide := ShiftWide(wide);
      rest := rest >> 1;
    }
    AddsEnds(p, wide as Byte, Mul(a, b));
  }

  ghost predicate HasInverse(a: Byte)
  {
    exists x :: Mul(a, x) == 1
  }

  ghost function Inverse(a: Byte): Byte
  {
    if HasInverse(a) then var x :| Mul(a, x) == 1; x else 0
  }

  // Zero has none; every other byte has exactly one.
  lemma InverseUnique(a: Byte, x: Byte)
    ensures HasInverse(a) <==> a != 0
    ensures Mul(a, x) == 1 ==> Inverse(a) == x
    ensures a != 0 ==> Mul(a, Inverse(a)) == 1
  {
    MulUnits(x);
    if a != 0 {
      var y := InverseExists(a);
      assert HasInverse(a);
      if Mul(a, x) == 1 {
        SameInverse(a, x, Inverse(a));
      }
    } else {
      forall y ensures Mul(a, y) != 1 {
        MulUnits(y);
      }
    }
  }

  lemma SameInverse(a: Byte, x: Byte, y: Byte)
    requires Mul(a, x) == 1 && Mul(a, y) == 1
    ensures x == y
  {
    MulUnits(x);
    MulUnits(y);
    MulCommutes(a, x);
    MulAssociates(x, a, y);
  }

  lemma InverseInRange(a: Byte) returns (y: nat)
    requires a != 0
    ensures 0 < y < 256 && Mul(a, ByteOf(y)) == 1
  {
    InverseUnique(a, 0);
    MulUnits(a);
    NonZeroNumber(Inverse(a));
    y := Number(Inverse(a));
  }

  method GfInv(a: Byte) returns (r: Option<Byte>)
    ensures r == if a == 0 then None else Some(Inverse(a))
  {
    InverseUnique(a, 0);
    for x := 1 to 256
      invariant forall y: nat :: 0 < y < x ==> Mul(a, ByteOf(y)) != 1
    {
      var p := GfMul(a, ByteOf(x));
      if p == 1 {
        InverseUnique(a, ByteOf(x));
        return Some(ByteOf(x));
      }
    }
    if a != 0 {
      var _ := InverseInRange(a);
      assert false;
    }
    r := None;
  }

  // ------------------------------------------------------------------ bytes form a field

  ghost function Bytes256(): Field<Byte>
  {
    Field(0, 1, (a, b) => a ^ b, (a, b) => Mul(a, b), a => Inverse(a))
  }

  lemma FieldOps(a: Byte, b: Byte)
    ensures Bytes256().add(a, b) == a ^ b && Bytes256().mul(a, b) == Mul(a, b) && Bytes256().inv(a) == Inverse(a)
  {
  }

  lemma XorLaws(a: Byte, b: Byte, c: Byte)
    ensures (a ^ b) ^ c == a ^ (b ^ c) && a ^ b == b ^ a && a ^ 0 == a && a ^ a == 0
  {
  }

  lemma ByteAddLaws(a: Byte, b: Byte, c: Byte)
    ensures AddLaws(Bytes256(), a, b, c)
  {
    XorLaws(a, b, c);
    FieldOps(a, b);
    FieldOps(b, c);
    FieldOps(b, a);
    FieldOps(a, 0);
    FieldOps(a, a);
    FieldOps(a ^ b, c);
    FieldOps(a, b ^ c);
  }

  lemma ByteMulLaws(a: Byte, b: Byte, c: Byte)
    ensures MulLaws(Bytes256(), a, b, c)
  {
    MulAssociates(a, b, c);
    MulCommutes(a, b);
    MulDistributes(b, c, a);
    MulUnits(a);
    FieldOps(a, b);
    FieldOps(b, c);
    FieldOps(b, a);
    FieldOps(a, 0);
    FieldOps(a, 1);
    FieldOps(a, c);
    FieldOps(Mul(a, b), c);
    FieldOps(a, Mul(b, c));
    FieldOps(a, b ^ c);
    FieldOps(Mul(a, b), Mul(a, c));
  }

  lemma BytesAreField()
    ensures IsField(Bytes256())
  {
    forall a, b, c ensures AddLaws(Bytes256(), a, b, c) {
      ByteAddLaws(a, b, c);
    }
    forall a, b, c ensures MulLaws(Bytes256(), a, b, c) {
      ByteMulLaws(a, b, c);
    }
    forall a ensures InvLaw(Bytes256(), a) {
      InverseUnique(a, 0);
      FieldOps(a, Inverse(a));
    }
  }

  // ------------------------------------------------------------------ shamirSplit

  // The polynomial at one point, in increasing powers.
  method EvalAt(coeffs: seq<Byte>, x: Byte) returns (acc: Byte)
    ensures acc == Eval(Bytes256(), coeffs, x)
  {
    BytesAreField();
    ghost var f := Bytes256();
    var power: Byte := 1;
    acc := 0;
    for j := 0 to |coeffs|
      invariant acc == Eval(f, coeffs[..j], x) && power == Pow(f, x, j)
    {
      assert coeffs[..j + 1] == coeffs[..j] + [coeffs[j]];
      EvalLonger(f, coeffs[..j], coeffs[j], x);
      var term := GfMul(coeffs[j], power);
      FieldOps(coeffs[j], power);
      FieldOps(acc, term);
      FieldOps(x, power);
      MulCommutes(x, power);
      acc := acc ^ term;
      power := GfMul(power, x);
    }
    assert coeffs[..|coeffs|] == coeffs;
  }

  // The points of the shares: 1 .. n.
  function Points(n: nat): (xs: seq<Byte>)
    requires n < 256
    ensures |xs| == n && forall i :: 0 <= i < n ==> Number(xs[i]) == i + 1
  {
    if n == 0 then [] else Points(n - 1) + [ByteOf(n)]
  }

  // The secret byte, then the random coefficients.
  function Polynomials(secret: seq<Byte>, random: seq<seq<Byte>>): (polys: seq<seq<Byte>>)
    requires |random| == |secret|
    ensures |polys| == |secret|
  {
    seq(|secret|, pos requires 0 <= pos < |secret| => [secret[pos]] + random[pos])
  }

  lemma ShareGrows(share: seq<Byte>, polys: seq<seq<Byte>>, pos: nat, x: Byte)
    requires pos < |polys| && IsShare(Bytes256(), share, polys[..pos], x)
    ensures IsShare(Bytes256(), share + [Eval(Bytes256(), polys[pos], x)], polys[..pos + 1], x)
  {
  }

  // The value of one more polynomial, pushed to every share.
  method PushByte(shares: seq<seq<Byte>>, ghost polys: seq<seq<Byte>>, pos: nat, coeffs: seq<Byte>, n: nat)
    returns (longer: seq<seq<Byte>>)
    requires n < 256 && pos < |polys| && polys[pos] == coeffs
    requires AreShares(Bytes256(), shares, polys[..pos], Points(n))
    ensures AreShares(Bytes256(), longer, polys[..pos + 1], Points(n))
  {
    longer := shares;
    for i := 0 to n
      invariant |longer| == n
      invariant forall j :: 0 <= j < i ==> IsShare(Bytes256(), longer[j], polys[..pos + 1], Points(n)[j])
      invariant forall j :: i <= j < n ==> longer[j] == shares[j]
    {
      var x := ByteOf(i + 1);
      NumberInjective(x, Points(n)[i]);
      var acc := EvalAt(coeffs, x);
      ShareGrows(shares[i], polys, pos, x);
      longer := longer[i := longer[i] + [acc]];
    }
  }

  method FirstBytes(n: nat) returns (shares: seq<seq<Byte>>)
    requires n < 256
    ensures AreShares(Bytes256(), shares, [], Points(n))
  {
    shares := [];
    for i := 0 to n
      invariant AreShares(Bytes256(), shares, [], Points(i))
    {
      shares := shares + [[ByteOf(i + 1)]];
    }
  }

  // random holds the k - 1 random coefficients of each byte.
  method ShamirSplit(secret: seq<Byte>, n: nat, k: nat, random: seq<seq<Byte>>) returns (shares: seq<seq<Byte>>)
    requires n < 256 && k > 0 && |random| == |secret| && forall pos :: 0 <= pos < |random| ==> |random[pos]| == k - 1
    ensures AreShares(Bytes256(), shares, Polynomials(secret, random), Points(n))
  {
    ghost var polys := Polynomials(secret, random);
    shares := FirstBytes(n);
    assert polys[..0] == [];
    for pos := 0 to |secret|
      invariant AreShares(Bytes256(), shares, polys[..pos], Points(n))
    {
      shares := PushByte(shares, polys, pos, [secret[pos]] + random[pos], n);
    }
    assert polys[..|secret|] == polys;
  }

  // ------------------------------------------------------------------ shamirCombine

  lemma DistinctOthers(xs: seq<Byte>)
    ensures Distinct(xs) <==> forall i :: 0 <= i < |xs| ==> xs[i] !in Others(xs, i)
  {
    forall i, j | 0 <= i < j < |xs| ensures xs[j] in Others(xs, i) {
      assert Others(xs, i)[j - 1] == xs[j];
    }
  }

  lemma NextFactor(us: seq<Byte>, x: Byte, y: Byte)
    ensures Numerator(Bytes256(), us + [y]) == Mul(Numerator(Bytes256(), us), y)
    ensures Denominator(Bytes256(), x, us + [y]) == Mul(Denominator(Bytes256(), x, us), x ^ y)
  {
    assert (us + [y])[..|us|] == us;
    FieldOps(Numerator(Bytes256(), us), y);
    FieldOps(x, y);
    FieldOps(Denominator(Bytes256(), x, us), x ^ y);
  }

  // Numerator and denominator of the weight of point i.
  method Fraction(xs: seq<Byte>, i: nat) returns (num: Byte, den: Byte)
    requires i < |xs|
    ensures num == Numerator(Bytes256(), Others(xs, i)) && den == Denominator(Bytes256(), xs[i], Others(xs, i))
  {
    ghost var us := [];
    num, den := 1, 1;
    for j := 0 to |xs|
      invariant us == if j <= i then xs[..j] else xs[..i] + xs[i + 1..j]
      invariant num == Numerator(Bytes256(), us) && den == Denominator(Bytes256(), xs[i], us)
    {
      if i != j {
        NextFactor(us, xs[i], xs[j]);
        num := GfMul(num, xs[j]);
        den := GfMul(den, xs[i] ^ xs[j]);
        us := us + [xs[j]];
      }
    }
    assert us == Others(xs, i);
  }

  lemma NextTerm(xs: seq<Byte>, ys: seq<Byte>, i: nat, num: Byte, den: Byte, inv: Byte)
    requires i < |xs| == |ys| && num == Numerator(Bytes256(), Others(xs, i))
    requires den == Denominator(Bytes256(), xs[i], Others(xs, i)) && inv == Inverse(den)
    ensures Interpolated(Bytes256(), xs, ys, i + 1) ==
      Interpolated(Bytes256(), xs, ys, i) ^ Mul(ys[i], Mul(num, inv))
  {
    FieldOps(den, den);
    FieldOps(num, inv);
    FieldOps(ys[i], Mul(num, inv));
    FieldOps(Interpolated(Bytes256(), xs, ys, i), Mul(ys[i], Mul(num, inv)));
  }

  // One byte of the secret, or nothing when a denominator has no inverse.
  method CombineByte(xs: seq<Byte>, ys: seq<Byte>) returns (r: Option<Byte>)
    requires |ys| == |xs|
    ensures r == if Distinct(xs) then Some(Interpolated(Bytes256(), xs, ys, |xs|)) else None
  {
    ghost var f := Bytes256();
    BytesAreField();
    DistinctOthers(xs);
    var acc: Byte := 0;
    for i := 0 to |xs|
      invariant acc == Interpolated(f, xs, ys, i)
      invariant forall j :: 0 <= j < i ==> xs[j] !in Others(xs, j)
    {
      var num, den := Fraction(xs, i);
      DenominatorZero(f, xs[i], Others(xs, i));
      var inv := GfInv(den);
      if inv.None? {
        return None;
      }
      NextTerm(xs, ys, i, num, den, inv.value);
      var weight := GfMul(num, inv.value);
      var term := GfMul(ys[i], weight);
      acc := acc ^ term;
    }
    r := Some(acc);
  }

  method ShamirCombine(shares: seq<seq<Byte>>) returns (r: Option<seq<Byte>>)
    requires |shares| > 0 && Rectangular(shares, |shares[0]|)
    ensures r == if |shares[0]| > 1 && !Distinct(Column(shares, 0)) then None
                 else Some(Combined(Bytes256(), shares, |shares[0]|, |shares[0]| - 1))
  {
    var length := |shares[0]|;
    var out := [];
    for pos := 1 to length
      invariant pos > 1 ==> Distinct(Column(shares, 0))
      invariant out == Combined(Bytes256(), shares, length, pos - 1)
    {
      var byte := CombineByte(Column(shares, 0), Column(shares, pos));
      if byte.None? {
        return None;
      }
      out := out + [byte.value];
    }
    r := Some(out);
  }

  // ------------------------------------------------------------------ recovery and secrecy

  // Any k or more different shares of a split give back the secret.
  lemma AnyKSharesRecover(secret: seq<Byte>, n: nat, k: nat, random: seq<seq<Byte>>, shares: seq<seq<Byte>>, picks: seq<nat>)
    requires n < 256 && k > 0 && |random| == |secret| && forall pos :: 0 <= pos < |random| ==> |random[pos]| == k - 1
    requires AreShares(Bytes256(), shares, Polynomials(secret, random), Points(n))
    requires k <= |picks| && Distinct(picks) && forall i :: 0 <= i < |picks| ==> picks[i] < n
    ensures var picked := Picked(shares, picks);
      Rectangular(picked, |secret| + 1) && Distinct(Column(picked, 0)) &&
      Combined(Bytes256(), picked, |secret| + 1, |secret|) == secret
  {
    var polys, points := Polynomials(secret, random), Points(n);
    assert Distinct(points);
    BytesAreField();
    PickedShares(Bytes256(), shares, polys, points, picks);
    SharesCombine(Bytes256(), Picked(shares, picks), polys, Picked(points, picks), secret, |secret|);
    assert secret[..|secret|] == secret;
  }

  // One byte of k - 1 shares fits every secret byte, through exactly one choice of the random coefficients.
  lemma FewerSharesTellNothing(xs: seq<Byte>, ys: seq<Byte>, secret: Byte) returns (random: seq<Byte>)
    requires Distinct(xs) && 0 !in xs && |ys| == |xs|
    ensures |random| == |xs| && Through(Bytes256(), [secret] + random, xs, ys)
    ensures forall other: seq<Byte> ::
      |other| == |xs| && Through(Bytes256(), [secret] + other, xs, ys) ==> other == random
  {
    BytesAreField();
    var p := FewerPointsTellNothing(Bytes256(), xs, ys, secret);
    random := p[1..];
    assert [secret] + random == p;
    forall other: seq<Byte> | |other| == |xs| && Through(Bytes256(), [secret] + other, xs, ys)
      ensures other == random
    {
      assert Explains(Bytes256(), [secret] + other, secret, xs, ys);
      assert ([secret] + other)[1..] == other;
    }
  }
}
