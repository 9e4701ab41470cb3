// Polynomials over a field of characteristic two, where sums and differences are the same,
// and their interpolation at zero by Lagrange weights: a polynomial is recovered from as
// many points as it has coefficients, and from fewer points nothing follows about its
// constant term.
module Interpolation {

  datatype Field<!T> = Field(zero: T, one: T, add: (T, T) -> T, mul: (T, T) -> T, inv: T -> T)

  ghost predicate AddLaws<T(!new)>(f: Field<T>, a: T, b: T, c: T)
  {
    f.add(f.add(a, b), c) == f.add(a, f.add(b, c)) && f.add(a, b) == f.add(b, a) &&
    f.add(a, f.zero) == a && f.add(a, a) == f.zero
  }

  ghost predicate MulLaws<T(!new)>(f: Field<T>, a: T, b: T, c: T)
  {
    f.mul(f.mul(a, b), c) == f.mul(a, f.mul(b, c)) && f.mul(a, b) == f.mul(b, a) &&
    f.mul(a, f.add(b, c)) == f.add(f.mul(a, b), f.mul(a, c)) && f.mul(a, f.one) == a && f.mul(a, f.zero) == f.zero
  }

  ghost predicate InvLaw<T(!new)>(f: Field<T>, a: T)
  {
    a != f.zero ==> f.mul(a, f.inv(a)) == f.one
  }

  ghost predicate IsField<T(!new)>(f: Field<T>)
  {
    f.one != f.zero &&
    (forall a, b, c {:trigger AddLaws(f, a, b, c)} :: AddLaws(f, a, b, c)) &&
    (forall a, b, c {:trigger MulLaws(f, a, b, c)} :: MulLaws(f, a, b, c)) &&
    forall a {:trigger InvLaw(f, a)} :: InvLaw(f, a)
  }

  // ------------------------------------------------------------------ rearrangements

  lemma AddExchange<T(!new)>(f: Field<T>, p: T, q: T, r: T, s: T)
    requires IsField(f)
    ensures f.add(f.add(p, q), f.add(r, s)) == f.add(f.add(p, r), f.add(q, s))
  {
    assert AddLaws(f, p, q, f.add(r, s));
    assert AddLaws(f, q, r, s);
    assert AddLaws(f, r, q, s);
    assert AddLaws(f, p, r, f.add(q, s));
  }

  lemma MulExchange<T(!new)>(f: Field<T>, p: T, q: T, r: T, s: T)
    requires IsField(f)
    ensures f.mul(f.mul(p, q), f.mul(r, s)) == f.mul(f.mul(p, r), f.mul(q, s))
  {
    assert MulLaws(f, p, q, f.mul(r, s));
    assert MulLaws(f, q, r, s);
    assert MulLaws(f, r, q, s);
    assert MulLaws(f, p, r, f.mul(q, s));
  }

  // Equal elements are those whose sum is zero.
  lemma SumZero<T(!new)>(f: Field<T>, a: T, b: T)
    requires IsField(f)
    ensures f.add(a, b) == f.zero <==> a == b
  {
    assert AddLaws(f, a, b, b);
    assert AddLaws(f, f.zero, b, b);
    assert AddLaws(f, b, b, b);
    assert AddLaws(f, a, a, a);
  }

  lemma MulNonZero<T(!new)>(f: Field<T>, a: T, b: T)
    requires IsField(f) && f.mul(a, b) == f.zero
    ensures a == f.zero || b == f.zero
  {
    if a != f.zero {
      assert InvLaw(f, a);
      assert MulLaws(f, f.inv(a), a, b);
      assert MulLaws(f, f.inv(a), f.zero, b);
      assert MulLaws(f, b, f.one, b);
      assert MulLaws(f, f.one, b, b);
    }
  }

  lemma InvOfProduct<T(!new)>(f: Field<T>, a: T, b: T)
    requires IsField(f) && a != f.zero && b != f.zero
    ensures f.mul(a, b) != f.zero && f.inv(f.mul(a, b)) == f.mul(f.inv(a), f.inv(b))
  {
    var p, i := f.mul(a, b), f.mul(f.inv(a), f.inv(b));
    if p == f.zero {
      MulNonZero(f, a, b);
    }
    assert InvLaw(f, a) && InvLaw(f, b) && InvLaw(f, p);
    MulExchange(f, a, b, f.inv(a), f.inv(b));
    assert MulLaws(f, f.one, f.one, f.one);
    assert f.mul(p, i) == f.one;
    assert MulLaws(f, f.inv(p), p, i);
    assert MulLaws(f, f.inv(p), f.one, i);
    assert MulLaws(f, i, f.one, i);
  }

  // ------------------------------------------------------------------ polynomials

  // Coefficients from the constant term up.
  function Eval<T>(f: Field<T>, p: seq<T>, x: T): T
  {
    if p == [] then f.zero else f.add(p[0], f.mul(x, Eval(f, p[1..], x)))
  }

  function Pow<T>(f: Field<T>, x: T, n: nat): T
  {
    if n == 0 then f.one else f.mul(x, Pow(f, x, n - 1))
  }

  // One more coefficient.
  lemma {:induction false} EvalLonger<T(!new)>(f: Field<T>, p: seq<T>, c: T, x: T)
    requires IsField(f)
    ensures Eval(f, p + [c], x) == f.add(Eval(f, p, x), f.mul(c, Pow(f, x, |p|)))
  {
    if p == [] {
      assert MulLaws(f, x, c, c) && MulLaws(f, c, c, c);
      assert AddLaws(f, c, f.zero, c);
    } else {
      var r := Eval(f, p[1..], x);
      var t := f.mul(c, Pow(f, x, |p| - 1));
      assert (p + [c])[1..] == p[1..] + [c];
      EvalLonger(f, p[1..], c, x);
      assert MulLaws(f, x, r, t);
      assert AddLaws(f, p[0], f.mul(x, r), f.mul(x, t));
      assert MulLaws(f, c, x, Pow(f, x, |p| - 1));
      assert MulLaws(f, x, c, Pow(f, x, |p| - 1));
    }
  }

  lemma EvalAtZero<T(!new)>(f: Field<T>, p: seq<T>)
    requires IsField(f) && p != []
    ensures Eval(f, p, f.zero) == p[0]
  {
    var r := Eval(f, p[1..], f.zero);
    assert MulLaws(f, r, f.zero, r);
    assert AddLaws(f, p[0], r, r);
  }

  // Division by x - b: p(x) = p(b) + (x + b) q(x).
  function Quotient<T>(f: Field<T>, p: seq<T>, b: T): (q: seq<T>)
    ensures |q| == if p == [] then 0 else |p| - 1
  {
    if |p| <= 1 then [] else [Eval(f, p[1..], b)] + Quotient(f, p[1..], b)
  }

  lemma {:induction false} Division<T(!new)>(f: Field<T>, p: seq<T>, b: T, x: T)
    requires IsField(f)
    ensures Eval(f, p, x) == f.add(Eval(f, p, b), f.mul(f.add(x, b), Eval(f, Quotient(f, p, b), x)))
  {
    if p == [] {
      assert MulLaws(f, f.add(x, b), x, x) && AddLaws(f, f.zero, x, x);
    } else if |p| == 1 {
      assert MulLaws(f, f.add(x, b), x, x) && MulLaws(f, x, x, x) && MulLaws(f, b, b, b) && AddLaws(f, p[0], x, x);
    } else {
      var r, q := Eval(f, p[1..], b), Eval(f, Quotient(f, p[1..], b), x);
      Division(f, p[1..], b, x);
      assert Quotient(f, p, b)[1..] == Quotient(f, p[1..], b);
      DivisionStep(f, p[0], x, b, r, q);
    }
  }

  // p0 + x (r + (x + b) q) = (p0 + b r) + (x + b) (r + x q)
  lemma DivisionStep<T(!new)>(f: Field<T>, p0: T, x: T, b: T, r: T, q: T)
    requires IsField(f)
    ensures var d := f.add(x, b);
      f.add(p0, f.mul(x, f.add(r, f.mul(d, q)))) == f.add(f.add(p0, f.mul(b, r)), f.mul(d, f.add(r, f.mul(x, q))))
  {
    var d := f.add(x, b);
    var xr, br, dq := f.mul(x, r), f.mul(b, r), f.mul(d, q);
    assert MulLaws(f, x, r, dq);
    assert MulLaws(f, d, r, f.mul(x, q));
    assert MulLaws(f, r, x, b) && MulLaws(f, r, d, r) && MulLaws(f, x, r, r) && MulLaws(f, b, r, r);
    assert f.mul(d, r) == f.add(xr, br);
    assert MulLaws(f, d, x, q) && MulLaws(f, x, d, q);
    var e := f.mul(x, dq);
    assert f.mul(d, f.mul(x, q)) == e;
    // p0 + (xr + e) = (p0 + br) + ((xr + br) + e)
    assert AddLaws(f, xr, br, e) && AddLaws(f, br, xr, e) && AddLaws(f, xr, e, e);
    assert AddLaws(f, p0, br, f.add(f.add(xr, br), e));
    assert AddLaws(f, br, br, f.add(xr, e));
    assert AddLaws(f, br, xr, br);
    assert AddLaws(f, f.zero, f.add(xr, e), e);
    assert AddLaws(f, f.add(xr, e), f.zero, e);
  }

  // ------------------------------------------------------------------ Lagrange weights at zero

  // The product of u / (x - u) over the other points u.
  function Weight<T>(f: Field<T>, x: T, others: seq<T>): T
  {
    if others == [] then f.one
    else f.mul(f.mul(others[0], f.inv(f.add(x, others[0]))), Weight(f, x, others[1..]))
  }

  lemma {:induction false} WeightConcat<T(!new)>(f: Field<T>, x: T, us: seq<T>, vs: seq<T>)
    requires IsField(f)
    ensures Weight(f, x, us + vs) == f.mul(Weight(f, x, us), Weight(f, x, vs))
  {
    var w := Weight(f, x, vs);
    if us == [] {
      assert us + vs == vs;
      assert MulLaws(f, w, f.one, w);
    } else {
      assert (us + vs)[1..] == us[1..] + vs;
      WeightConcat(f, x, us[1..], vs);
      assert MulLaws(f, f.mul(us[0], f.inv(f.add(x, us[0]))), Weight(f, x, us[1..]), w);
    }
  }

  lemma WeightRotates<T(!new)>(f: Field<T>, x: T, us: seq<T>, vs: seq<T>)
    requires IsField(f)
    ensures Weight(f, x, us + vs) == Weight(f, x, vs + us)
  {
    WeightConcat(f, x, us, vs);
    WeightConcat(f, x, vs, us);
    assert MulLaws(f, Weight(f, x, us), Weight(f, x, vs), f.one);
  }

  lemma WeightFirst<T(!new)>(f: Field<T>, x: T, c: T, us: seq<T>, vs: seq<T>)
    ensures Weight(f, x, [c] + us + vs) == f.mul(f.mul(c, f.inv(f.add(x, c))), Weight(f, x, us + vs))
  {
    assert ([c] + us + vs)[1..] == us + vs;
  }

  lemma WeightLast<T(!new)>(f: Field<T>, x: T, us: seq<T>, vs: seq<T>, a: T)
    requires IsField(f)
    ensures Weight(f, x, us + (vs + [a])) == Weight(f, x, [a] + us + vs)
  {
    assert us + (vs + [a]) == (us + vs) + [a] && [a] + (us + vs) == [a] + us + vs;
    WeightRotates(f, x, us + vs, [a]);
  }

  // The sum of g(x) times its weight over the points x of xs; the points of pre count among the others.
  function Lagrange<T>(f: Field<T>, pre: seq<T>, xs: seq<T>, g: T -> T): T
    decreases |xs|
  {
    if xs == [] then f.zero
    else f.add(f.mul(g(xs[0]), Weight(f, xs[0], pre + xs[1..])), Lagrange(f, pre + [xs[0]], xs[1..], g))
  }

  lemma {:induction false} LagrangeSum<T(!new)>(f: Field<T>, pre: seq<T>, xs: seq<T>, k: T -> T, g: T -> T, h: T -> T)
    requires IsField(f) && forall x :: x in xs ==> k(x) == f.add(g(x), h(x))
    ensures Lagrange(f, pre, xs, k) == f.add(Lagrange(f, pre, xs, g), Lagrange(f, pre, xs, h))
    decreases |xs|
  {
    if xs == [] {
      assert AddLaws(f, f.zero, f.zero, f.zero);
    } else {
      var x, w := xs[0], Weight(f, xs[0], pre + xs[1..]);
      LagrangeSum(f, pre + [x], xs[1..], k, g, h);
      assert MulLaws(f, w, g(x), h(x)) && MulLaws(f, k(x), w, w) && MulLaws(f, g(x), w, w) && MulLaws(f, h(x), w, w);
      AddExchange(f, f.mul(g(x), w), f.mul(h(x), w),
                  Lagrange(f, pre + [x], xs[1..], g), Lagrange(f, pre + [x], xs[1..], h));
    }
  }

  lemma {:induction false} LagrangeScale<T(!new)>(f: Field<T>, pre: seq<T>, xs: seq<T>, k: T -> T, c: T, g: T -> T)
    requires IsField(f) && forall x :: x in xs ==> k(x) == f.mul(c, g(x))
    ensures Lagrange(f, pre, xs, k) == f.mul(c, Lagrange(f, pre, xs, g))
    decreases |xs|
  {
    if xs == [] {
      assert MulLaws(f, c, c, c);
    } else {
      var x, w := xs[0], Weight(f, xs[0], pre + xs[1..]);
      LagrangeScale(f, pre + [x], xs[1..], k, c, g);
      assert MulLaws(f, c, g(x), w);
      assert MulLaws(f, c, f.mul(g(x), w), Lagrange(f, pre + [x], xs[1..], g));
    }
  }

  // A factor x - c takes the point c out of the weights.
  lemma {:induction false} LagrangeCancels<T(!new)>(f: Field<T>, c: T, pre: seq<T>, xs: seq<T>, k: T -> T, g: T -> T)
    requires IsField(f) && c !in xs && forall x :: x in xs ==> k(x) == f.mul(f.add(x, c), g(x))
    ensures Lagrange(f, [c] + pre, xs, k) == f.mul(c, Lagrange(f, pre, xs, g))
    decreases |xs|
  {
    if xs == [] {
      assert MulLaws(f, c, c, c);
    } else {
      var x := xs[0];
      var w, d := Weight(f, x, pre + xs[1..]), f.add(x, c);
      LagrangeCancels(f, c, pre + [x], xs[1..], k, g);
      assert [c] + pre + [x] == [c] + (pre + [x]);
      WeightFirst(f, x, c, pre, xs[1..]);
      SumZero(f, x, c);
      CancelFactor(f, d, g(x), c, w);
      assert MulLaws(f, c, f.mul(g(x), w), Lagrange(f, pre + [x], xs[1..], g));
    }
  }

  lemma CancelFactor<T(!new)>(f: Field<T>, d: T, v: T, c: T, w: T)
    requires IsField(f) && d != f.zero
    ensures f.mul(f.mul(d, v), f.mul(f.mul(c, f.inv(d)), w)) == f.mul(c, f.mul(v, w))
  {
    var i := f.inv(d);
    MulExchange(f, d, v, f.mul(c, i), w);
    assert MulLaws(f, c, i, d) && MulLaws(f, d, f.mul(c, i), d) && MulLaws(f, i, d, d) && MulLaws(f, c, f.one, d);
    assert InvLaw(f, d);
  }

  // The last point, instead of the first, taken out of the sum.
  lemma {:induction false} LagrangeLast<T(!new)>(f: Field<T>, pre: seq<T>, xs: seq<T>, a: T, g: T -> T)
    requires IsField(f)
    ensures Lagrange(f, pre, xs + [a], g) ==
      f.add(Lagrange(f, [a] + pre, xs, g), f.mul(g(a), Weight(f, a, pre + xs)))
    decreases |xs|
  {
    var t := f.mul(g(a), Weight(f, a, pre + xs));
    if xs == [] {
      assert ([] + [a])[1..] == [] && pre + [] == pre && xs + [a] == [a];
      assert AddLaws(f, t, f.zero, t) && AddLaws(f, f.zero, t, t);
    } else {
      var x := xs[0];
      LagrangeLast(f, pre + [x], xs[1..], a, g);
      assert (xs + [a])[1..] == xs[1..] + [a] && pre + [x] + xs[1..] == pre + xs;
      WeightLast(f, x, pre, xs[1..], a);
      assert [a] + pre + [x] == [a] + (pre + [x]);
      assert AddLaws(f, f.mul(g(x), Weight(f, x, [a] + pre + xs[1..])), Lagrange(f, [a] + (pre + [x]), xs[1..], g), t);
    }
  }

  ghost predicate Distinct<T(!new)>(xs: seq<T>)
  {
    forall i, j :: 0 <= i < j < |xs| ==> xs[i] != xs[j]
  }

  // With a function that vanishes at the first point.
  lemma WithoutFirst<T(!new)>(f: Field<T>, xs: seq<T>, k: T -> T, g: T -> T)
    requires IsField(f) && Distinct(xs) && xs != [] && forall x :: x in xs ==> k(x) == f.mul(f.add(x, xs[0]), g(x))
    ensures Lagrange(f, [], xs, k) == f.mul(xs[0], Lagrange(f, [], xs[1..], g))
  {
    var b := xs[0];
    var l := Lagrange(f, [b], xs[1..], k);
    assert AddLaws(f, b, b, b) && MulLaws(f, g(b), f.zero, g(b));
    assert MulLaws(f, Weight(f, b, xs[1..]), f.zero, b) && MulLaws(f, f.zero, Weight(f, b, xs[1..]), b);
    assert k(b) == f.zero;
    assert [] + [b] == [b] && [] + xs[1..] == xs[1..] && [b] + [] == [b];
    LagrangeCancels(f, b, [], xs[1..], k, g);
    assert AddLaws(f, f.zero, l, b) && AddLaws(f, l, l, b);
  }

  // And at the last point.
  lemma WithoutLast<T(!new)>(f: Field<T>, xs: seq<T>, a: T, k: T -> T, g: T -> T)
    requires IsField(f) && Distinct(xs + [a]) && forall x :: x in xs + [a] ==> k(x) == f.mul(f.add(x, a), g(x))
    ensures Lagrange(f, [], xs + [a], k) == f.mul(a, Lagrange(f, [], xs, g))
  {
    var l := Lagrange(f, [a], xs, k);
    var w := Weight(f, a, [] + xs);
    assert (xs + [a])[|xs|] == a && a in xs + [a];
    assert AddLaws(f, a, a, a) && MulLaws(f, g(a), f.zero, g(a));
    assert MulLaws(f, w, f.zero, a) && MulLaws(f, f.zero, w, a);
    assert k(a) == f.zero;
    LagrangeLast(f, [], xs, a, k);
    assert [a] + [] == [a];
    assert a !in xs by {
      assert forall i :: 0 <= i < |xs| ==> (xs + [a])[i] == xs[i];
    }
    LagrangeCancels(f, a, [], xs, k, g);
    assert AddLaws(f, l, f.zero, a);
  }

  // The weights of distinct points add up to one.
  lemma {:induction false} WeightsSumToOne<T(!new)>(f: Field<T>, xs: seq<T>)
    requires IsField(f) && Distinct(xs) && xs != []
    ensures Lagrange(f, [], xs, x => f.one) == f.one
    decreases |xs|
  {
    var n, one := |xs| - 1, (x: T) => f.one;
    if n == 0 {
      assert [] + xs[1..] == [];
      assert MulLaws(f, f.one, f.one, f.one) && AddLaws(f, f.one, f.one, f.one);
    } else {
      var b, a, c := xs[0], xs[n], f.add(xs[0], xs[n]);
      WeightsSumToOne(f, xs[1..]);
      WeightsSumToOne(f, xs[..n]);
      assert xs == xs[..n] + [a];
      WithoutFirst(f, xs, x => f.mul(f.add(x, b), f.one), one);
      WithoutLast(f, xs[..n], a, x => f.mul(f.add(x, a), f.one), one);
      assert MulLaws(f, a, f.one, f.one) && MulLaws(f, b, f.one, f.one);
      forall x | x in xs ensures f.mul(c, f.one) == f.add(f.mul(f.add(x, b), f.one), f.mul(f.add(x, a), f.one)) {
        DifferenceIsConstant(f, x, b, a);
      }
      LagrangeSum(f, [], xs, x => f.mul(c, f.one), x => f.mul(f.add(x, b), f.one), x => f.mul(f.add(x, a), f.one));
      LagrangeScale(f, [], xs, x => f.mul(c, f.one), c, one);
      SumZero(f, b, a);
      FixedFactor(f, c, Lagrange(f, [], xs, one));
    }
  }

  lemma DifferenceIsConstant<T(!new)>(f: Field<T>, x: T, b: T, a: T)
    requires IsField(f)
    ensures f.mul(f.add(b, a), f.one) == f.add(f.mul(f.add(x, b), f.one), f.mul(f.add(x, a), f.one))
  {
    assert MulLaws(f, f.add(x, b), f.one, f.one) && MulLaws(f, f.add(x, a), f.one, f.one) && MulLaws(f, f.add(b, a), f.one, f.one);
    AddExchange(f, x, b, x, a);
    assert AddLaws(f, x, x, x) && AddLaws(f, f.zero, f.add(b, a), x) && AddLaws(f, f.add(b, a), f.zero, x);
  }

  lemma FixedFactor<T(!new)>(f: Field<T>, c: T, l: T)
    requires IsField(f) && c != f.zero && f.mul(c, l) == c
    ensures l == f.one
  {
    assert InvLaw(f, c);
    assert MulLaws(f, f.inv(c), c, l) && MulLaws(f, f.inv(c), c, c) && MulLaws(f, f.one, l, l) && MulLaws(f, l, f.one, l);
  }

  // ------------------------------------------------------------------ recovery

  // Interpolating a polynomial at as many distinct points as it has coefficients, or more, gives its constant term.
  lemma {:induction false} LagrangeRecovers<T(!new)>(f: Field<T>, xs: seq<T>, p: seq<T>)
    requires IsField(f) && Distinct(xs) && |p| <= |xs|
    ensures Lagrange(f, [], xs, x => Eval(f, p, x)) == Eval(f, p, f.zero)
    decreases |xs|
  {
    if xs != [] {
      var b := xs[0];
      var q, c := Quotient(f, p, b), Eval(f, p, b);
      LagrangeRecovers(f, xs[1..], q);
      WithoutFirst(f, xs, x => f.mul(f.add(x, b), Eval(f, q, x)), x => Eval(f, q, x));
      WeightsSumToOne(f, xs);
      LagrangeScale(f, [], xs, x => f.mul(c, f.one), c, x => f.one);
      forall x | x in xs + [f.zero]
        ensures Eval(f, p, x) == f.add(f.mul(c, f.one), f.mul(f.add(x, b), Eval(f, q, x)))
      {
        Division(f, p, b, x);
        assert MulLaws(f, c, f.one, c);
      }
      LagrangeSum(f, [], xs, x => Eval(f, p, x), x => f.mul(c, f.one), x => f.mul(f.add(x, b), Eval(f, q, x)));
      assert f.zero in xs + [f.zero];
      assert AddLaws(f, f.zero, b, b) && AddLaws(f, b, f.zero, b);
    }
  }

  // ------------------------------------------------------------------ the interpolation as it is computed

  function Others<T>(xs: seq<T>, i: nat): seq<T>
    requires i < |xs|
  {
    xs[..i] + xs[i + 1..]
  }

  function Numerator<T>(f: Field<T>, us: seq<T>): T
  {
    if us == [] then f.one else f.mul(Numerator(f, us[..|us| - 1]), us[|us| - 1])
  }

  function Denominator<T>(f: Field<T>, x: T, us: seq<T>): T
  {
    if us == [] then f.one else f.mul(Denominator(f, x, us[..|us| - 1]), f.add(x, us[|us| - 1]))
  }

  // The first i terms of the interpolation at zero of the values ys at the points xs.
  function Interpolated<T>(f: Field<T>, xs: seq<T>, ys: seq<T>, i: nat): T
    requires i <= |xs| == |ys|
  {
    if i == 0 then f.zero
    else
      var others := Others(xs, i - 1);
      f.add(Interpolated(f, xs, ys, i - 1),
            f.mul(ys[i - 1], f.mul(Numerator(f, others), f.inv(Denominator(f, xs[i - 1], others)))))
  }

  lemma {:induction false} DenominatorZero<T(!new)>(f: Field<T>, x: T, us: seq<T>)
    requires IsField(f)
    ensures Denominator(f, x, us) == f.zero <==> x in us
  {
    if us != [] {
      var init, u := us[..|us| - 1], us[|us| - 1];
      var d, e := Denominator(f, x, init), f.add(x, u);
      DenominatorZero(f, x, init);
      SumZero(f, x, u);
      assert us == init + [u];
      assert MulLaws(f, e, f.zero, e) && MulLaws(f, f.zero, e, e) && MulLaws(f, d, f.zero, d);
      if f.mul(d, e) == f.zero {
        MulNonZero(f, d, e);
      }
    }
  }

  lemma {:induction false} WeightIsFraction<T(!new)>(f: Field<T>, x: T, us: seq<T>)
    requires IsField(f) && x !in us
    ensures Weight(f, x, us) == f.mul(Numerator(f, us), f.inv(Denominator(f, x, us)))
  {
    if us == [] {
      assert InvLaw(f, f.one) && MulLaws(f, f.inv(f.one), f.one, f.one) && MulLaws(f, f.one, f.inv(f.one), f.one);
    } else {
      var init, u := us[..|us| - 1], us[|us| - 1];
      var d, e := Denominator(f, x, init), f.add(x, u);
      assert us == init + [u];
      WeightIsFraction(f, x, init);
      WeightConcat(f, x, init, [u]);
      DenominatorZero(f, x, init);
      SumZero(f, x, u);
      InvOfProduct(f, d, e);
      assert Weight(f, x, [u]) == f.mul(f.mul(u, f.inv(e)), f.one);
      assert MulLaws(f, f.mul(u, f.inv(e)), f.one, f.one);
      MulExchange(f, Numerator(f, init), f.inv(d), u, f.inv(e));
    }
  }

  lemma {:induction false} InterpolatedUpTo<T(!new)>(f: Field<T>, xs: seq<T>, ys: seq<T>, g: T -> T, i: nat)
    requires IsField(f) && Distinct(xs) && i <= |xs| == |ys| && forall j :: 0 <= j < |xs| ==> ys[j] == g(xs[j])
    ensures Lagrange(f, [], xs, g) == f.add(Interpolated(f, xs, ys, i), Lagrange(f, xs[..i], xs[i..], g))
  {
    var l := Lagrange(f, xs[..i], xs[i..], g);
    if i == 0 {
      assert xs[..0] == [] && xs[0..] == xs;
      assert AddLaws(f, f.zero, l, l) && AddLaws(f, l, l, l);
    } else {
      var x := xs[i - 1];
      InterpolatedUpTo(f, xs, ys, g, i - 1);
      assert xs[i - 1..][0] == x && xs[i - 1..][1..] == xs[i..] && xs[..i - 1] + [x] == xs[..i];
      WeightIsFraction(f, x, Others(xs, i - 1));
      assert AddLaws(f, Interpolated(f, xs, ys, i - 1), f.mul(g(x), Weight(f, x, Others(xs, i - 1))), l);
    }
  }

  // What is computed from the values of a polynomial at enough distinct points is its constant term.
  lemma InterpolationRecovers<T(!new)>(f: Field<T>, xs: seq<T>, ys: seq<T>, p: seq<T>)
    requires IsField(f) && Distinct(xs) && |ys| == |xs| && 0 < |p| <= |xs| && Through(f, p, xs, ys)
    ensures Interpolated(f, xs, ys, |xs|) == p[0]
  {
    InterpolatedUpTo(f, xs, ys, x => Eval(f, p, x), |xs|);
    assert xs[..|xs|] == xs && xs[|xs|..] == [];
    LagrangeRecovers(f, xs, p);
    EvalAtZero(f, p);
    var v := Interpolated(f, xs, ys, |xs|);
    assert AddLaws(f, v, f.zero, v);
  }

  // ------------------------------------------------------------------ one polynomial through given points

  // The polynomial y + (x + b) q(x).
  function Lift<T>(f: Field<T>, q: seq<T>, b: T, y: T): (p: seq<T>)
    ensures |p| == |q| + 1
  {
    if q == [] then [y] else [f.add(y, f.mul(b, q[0]))] + Lift(f, q[1..], b, q[0])
  }

  lemma {:induction false} LiftEval<T(!new)>(f: Field<T>, q: seq<T>, b: T, y: T, x: T)
    requires IsField(f)
    ensures Eval(f, Lift(f, q, b, y), x) == f.add(y, f.mul(f.add(x, b), Eval(f, q, x)))
  {
    var d := f.add(x, b);
    if q == [] {
      assert MulLaws(f, x, x, x) && MulLaws(f, d, d, d);
    } else {
      var p0, t := f.add(y, f.mul(b, q[0])), f.mul(b, q[0]);
      LiftEval(f, q[1..], b, q[0], x);
      assert Lift(f, q, b, y)[1..] == Lift(f, q[1..], b, q[0]);
      DivisionStep(f, p0, x, b, q[0], Eval(f, q[1..], x));
      assert AddLaws(f, y, t, t) && AddLaws(f, t, t, t) && AddLaws(f, y, y, y);
    }
  }

  ghost predicate Through<T(!new)>(f: Field<T>, p: seq<T>, xs: seq<T>, ys: seq<T>)
    requires |ys| == |xs|
  {
    forall i :: 0 <= i < |xs| ==> Eval(f, p, xs[i]) == ys[i]
  }

  lemma {:induction false} Interpolates<T(!new)>(f: Field<T>, xs: seq<T>, ys: seq<T>) returns (p: seq<T>)
    requires IsField(f) && Distinct(xs) && |ys| == |xs|
    ensures |p| == |xs| && Through(f, p, xs, ys)
    decreases |xs|
  {
    if xs == [] {
      p := [];
    } else {
      var b, y := xs[0], ys[0];
      var zs := seq(|xs| - 1, i requires 0 <= i < |xs| - 1 => f.mul(f.inv(f.add(xs[i + 1], b)), f.add(ys[i + 1], y)));
      var q := Interpolates(f, xs[1..], zs);
      p := Lift(f, q, b, y);
      forall i | 0 <= i < |xs| ensures Eval(f, p, xs[i]) == ys[i] {
        LiftEval(f, q, b, y, xs[i]);
        if i == 0 {
          assert AddLaws(f, b, b, b) && MulLaws(f, Eval(f, q, b), f.zero, b) && MulLaws(f, f.zero, Eval(f, q, b), b);
          assert AddLaws(f, y, y, y);
        } else {
          assert xs[1..][i - 1] == xs[i] && zs[i - 1] == Eval(f, q, xs[i]);
          SumZero(f, xs[i], b);
          SlopeHits(f, f.add(xs[i], b), y, ys[i]);
        }
      }
    }
  }

  lemma SlopeHits<T(!new)>(f: Field<T>, d: T, y: T, z: T)
    requires IsField(f) && d != f.zero
    ensures f.add(y, f.mul(d, f.mul(f.inv(d), f.add(z, y)))) == z
  {
    assert InvLaw(f, d) && MulLaws(f, d, f.inv(d), f.add(z, y));
    assert MulLaws(f, f.one, f.add(z, y), z) && MulLaws(f, f.add(z, y), f.one, z);
    assert AddLaws(f, y, z, z) && AddLaws(f, z, y, y) && AddLaws(f, y, f.add(z, y), y) && AddLaws(f, z, z, z);
    assert AddLaws(f, y, y, y);
  }

  ghost predicate AllZero<T(!new)>(f: Field<T>, p: seq<T>)
  {
    forall i :: 0 <= i < |p| ==> p[i] == f.zero
  }

  lemma {:induction false} QuotientZero<T(!new)>(f: Field<T>, p: seq<T>, b: T)
    requires IsField(f) && AllZero(f, Quotient(f, p, b)) && Eval(f, p, b) == f.zero
    ensures AllZero(f, p)
  {
    if p != [] {
      var r := Eval(f, p[1..], b);
      assert MulLaws(f, b, b, b) && AddLaws(f, p[0], b, b);
      if |p| > 1 {
        assert Quotient(f, p, b)[0] == r && Quotient(f, p, b)[1..] == Quotient(f, p[1..], b);
        QuotientZero(f, p[1..], b);
        assert p == [p[0]] + p[1..];
      }
    }
  }

  // A polynomial with as many roots as coefficients is zero.
  lemma {:induction false} RootsForceZero<T(!new)>(f: Field<T>, xs: seq<T>, p: seq<T>)
    requires IsField(f) && Distinct(xs) && |p| <= |xs| && forall i :: 0 <= i < |xs| ==> Eval(f, p, xs[i]) == f.zero
    ensures AllZero(f, p)
    decreases |xs|
  {
    if p != [] {
      var b, q := xs[0], Quotient(f, p, xs[0]);
      forall i | 0 <= i < |xs| - 1 ensures Eval(f, q, xs[1..][i]) == f.zero {
        var x := xs[i + 1];
        var v := f.mul(f.add(x, b), Eval(f, q, x));
        Division(f, p, b, x);
        assert AddLaws(f, f.zero, v, v) && AddLaws(f, v, v, v);
        MulNonZero(f, f.add(x, b), Eval(f, q, x));
        SumZero(f, x, b);
      }
      RootsForceZero(f, xs[1..], q);
      QuotientZero(f, p, b);
    }
  }

  function Sum<T>(f: Field<T>, p: seq<T>, q: seq<T>): (s: seq<T>)
    requires |p| == |q|
    ensures |s| == |p| && forall i :: 0 <= i < |p| ==> s[i] == f.add(p[i], q[i])
  {
    if p == [] then [] else [f.add(p[0], q[0])] + Sum(f, p[1..], q[1..])
  }

  lemma {:induction false} EvalSum<T(!new)>(f: Field<T>, p: seq<T>, q: seq<T>, x: T)
    requires IsField(f) && |p| == |q|
    ensures Eval(f, Sum(f, p, q), x) == f.add(Eval(f, p, x), Eval(f, q, x))
  {
    if p == [] {
      assert AddLaws(f, f.zero, f.zero, x);
    } else {
      var u, v := Eval(f, p[1..], x), Eval(f, q[1..], x);
      EvalSum(f, p[1..], q[1..], x);
      assert MulLaws(f, x, u, v);
      AddExchange(f, p[0], q[0], f.mul(x, u), f.mul(x, v));
    }
  }

  // Two polynomials through the same points are the same.
  lemma OnlyOneThrough<T(!new)>(f: Field<T>, xs: seq<T>, ys: seq<T>, p: seq<T>, q: seq<T>)
    requires IsField(f) && Distinct(xs) && |ys| == |xs| == |p| == |q| && Through(f, p, xs, ys) && Through(f, q, xs, ys)
    ensures p == q
  {
    forall i | 0 <= i < |xs| ensures Eval(f, Sum(f, p, q), xs[i]) == f.zero {
      EvalSum(f, p, q, xs[i]);
      SumZero(f, Eval(f, p, xs[i]), Eval(f, q, xs[i]));
    }
    RootsForceZero(f, xs, Sum(f, p, q));
    forall i | 0 <= i < |p| ensures p[i] == q[i] {
      SumZero(f, p[i], q[i]);
    }
  }

  ghost predicate Explains<T(!new)>(f: Field<T>, p: seq<T>, secret: T, xs: seq<T>, ys: seq<T>)
    requires |ys| == |xs|
  {
    |p| == |xs| + 1 && p[0] == secret && Through(f, p, xs, ys)
  }

  // Values at one point fewer than there are coefficients fit every constant term, in exactly one way.
  lemma FewerPointsTellNothing<T(!new)>(f: Field<T>, xs: seq<T>, ys: seq<T>, secret: T) returns (p: seq<T>)
    requires IsField(f) && Distinct(xs) && f.zero !in xs && |ys| == |xs|
    ensures Explains(f, p, secret, xs, ys)
    ensures forall q :: Explains(f, q, secret, xs, ys) ==> q == p
  {
    var xs0, ys0 := [f.zero] + xs, [secret] + ys;
    p := Interpolates(f, xs0, ys0);
    EvalAtZero(f, p);
    assert Eval(f, p, xs0[0]) == ys0[0];
    forall i | 0 <= i < |xs| ensures Eval(f, p, xs[i]) == ys[i] {
      assert xs0[i + 1] == xs[i] && ys0[i + 1] == ys[i];
    }
    forall q | Explains(f, q, secret, xs, ys) ensures q == p {
      EvalAtZero(f, q);
      OnlyOneThrough(f, xs0, ys0, q, p);
    }
  }

  // ------------------------------------------------------------------ shares

  // A share starts with its point and goes on with the values of the polynomials there.
  ghost predicate IsShare<T(!new)>(f: Field<T>, share: seq<T>, polys: seq<seq<T>>, x: T)
  {
    |share| == |polys| + 1 && share[0] == x &&
    forall pos :: 0 <= pos < |polys| ==> share[pos + 1] == Eval(f, polys[pos], x)
  }

  ghost predicate AreShares<T(!new)>(f: Field<T>, shares: seq<seq<T>>, polys: seq<seq<T>>, points: seq<T>)
  {
    |shares| == |points| && forall i :: 0 <= i < |shares| ==> IsShare(f, shares[i], polys, points[i])
  }

  ghost predicate Rectangular<T(!new)>(shares: seq<seq<T>>, length: nat)
  {
    |shares| > 0 && length > 0 && forall i :: 0 <= i < |shares| ==> |shares[i]| == length
  }

  function Column<T>(shares: seq<seq<T>>, pos: nat): (column: seq<T>)
    requires forall i :: 0 <= i < |shares| ==> pos < |shares[i]|
    ensures |column| == |shares| && forall i :: 0 <= i < |shares| ==> column[i] == shares[i][pos]
  {
    if shares == [] then [] else [shares[0][pos]] + Column(shares[1..], pos)
  }

  // What the first n values of the shares combine to.
  ghost function Combined<T(!new)>(f: Field<T>, shares: seq<seq<T>>, length: nat, n: nat): (s: seq<T>)
    requires Rectangular(shares, length) && n < length
    ensures |s| == n
  {
    if n == 0 then []
    else Combined(f, shares, length, n - 1) + [Interpolated(f, Column(shares, 0), Column(shares, n), |shares|)]
  }

  lemma ShareColumns<T(!new)>(f: Field<T>, shares: seq<seq<T>>, polys: seq<seq<T>>, points: seq<T>, n: nat)
    requires AreShares(f, shares, polys, points) && |points| > 0 && n <= |polys|
    ensures Rectangular(shares, |polys| + 1) && Column(shares, 0) == points
    ensures n > 0 ==> Through(f, polys[n - 1], points, Column(shares, n))
  {
    assert forall i :: 0 <= i < |shares| ==> IsShare(f, shares[i], polys, points[i]);
  }

  // Enough shares of polynomials with as many coefficients, at distinct points, combine to the constant terms.
  lemma {:induction false} SharesCombine<T(!new)>(f: Field<T>, shares: seq<seq<T>>, polys: seq<seq<T>>, points: seq<T>,
                                                  secret: seq<T>, n: nat)
    requires IsField(f) && AreShares(f, shares, polys, points) && Distinct(points) && |points| > 0
    requires |polys| == |secret| && n <= |secret|
    requires forall pos :: 0 <= pos < |polys| ==> 0 < |polys[pos]| <= |points| && polys[pos][0] == secret[pos]
    ensures Rectangular(shares, |secret| + 1) && Distinct(Column(shares, 0))
    ensures Combined(f, shares, |secret| + 1, n) == secret[..n]
  {
    ShareColumns(f, shares, polys, points, n);
    if n > 0 {
      SharesCombine(f, shares, polys, points, secret, n - 1);
      InterpolationRecovers(f, points, Column(shares, n), polys[n - 1]);
      assert secret[..n] == secret[..n - 1] + [secret[n - 1]];
    }
  }

  // A selection of elements.
  function Picked<T>(s: seq<T>, picks: seq<nat>): (r: seq<T>)
    requires forall i :: 0 <= i < |picks| ==> picks[i] < |s|
    ensures |r| == |picks| && forall i :: 0 <= i < |picks| ==> r[i] == s[picks[i]]
  {
    if picks == [] then [] else [s[picks[0]]] + Picked(s, picks[1..])
  }

  lemma PickedShares<T(!new)>(f: Field<T>, shares: seq<seq<T>>, polys: seq<seq<T>>, points: seq<T>, picks: seq<nat>)
    requires AreShares(f, shares, polys, points) && Distinct(points) && Distinct(picks)
    requires forall i :: 0 <= i < |picks| ==> picks[i] < |points|
    ensures AreShares(f, Picked(shares, picks), polys, Picked(points, picks)) && Distinct(Picked(points, picks))
  {
  }
}
