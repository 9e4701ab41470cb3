// Multiplication by repeated shifting: the running factor is shifted once for every digit of
// the other one and added where the digit is set.  For any shift that is linear over the
// addition, the product is linear in its first factor and two digit strings may change
// places, which is all that commutativity and associativity need.
module ShiftAlgebra {

  // A sum and a shift on T.
  datatype Shift<!T> = Shift(zero: T, add: (T, T) -> T, xt: T -> T)

  ghost predicate Exchanges<T(!new)>(f: Shift<T>, p: T, q: T, r: T, s: T)
  {
    f.add(f.add(p, q), f.add(r, s)) == f.add(f.add(p, r), f.add(q, s))
  }

  ghost predicate Linear<T(!new)>(f: Shift<T>, p: T, q: T)
  {
    f.xt(f.add(p, q)) == f.add(f.xt(p), f.xt(q))
  }

  ghost predicate HasZero<T(!new)>(f: Shift<T>, p: T)
  {
    f.add(p, f.zero) == p && f.add(f.zero, p) == p
  }

  ghost predicate Lawful<T(!new)>(f: Shift<T>)
  {
    (forall p, q, r, s {:trigger Exchanges(f, p, q, r, s)} :: Exchanges(f, p, q, r, s)) &&
    (forall p, q {:trigger Linear(f, p, q)} :: Linear(f, p, q)) &&
    (forall p {:trigger HasZero(f, p)} :: HasZero(f, p)) &&
    f.xt(f.zero) == f.zero
  }

  function Digit<T>(f: Shift<T>, bit: bool, a: T): T
  {
    if bit then a else f.zero
  }

  // The sum of a, shifted by k, over the positions k of the bits.
  function Times<T>(f: Shift<T>, a: T, bits: seq<bool>): T
  {
    if bits == [] then f.zero else f.add(Digit(f, bits[0], a), Times(f, f.xt(a), bits[1..]))
  }

  lemma {:induction false} TimesShift<T(!new)>(f: Shift<T>, a: T, bits: seq<bool>)
    requires Lawful(f)
    ensures Times(f, f.xt(a), bits) == f.xt(Times(f, a, bits))
  {
    if bits != [] {
      TimesShift(f, f.xt(a), bits[1..]);
      assert Linear(f, Digit(f, bits[0], a), Times(f, f.xt(a), bits[1..]));
    }
  }

  lemma {:induction false} TimesSum<T(!new)>(f: Shift<T>, a: T, c: T, bits: seq<bool>)
    requires Lawful(f)
    ensures Times(f, f.add(a, c), bits) == f.add(Times(f, a, bits), Times(f, c, bits))
  {
    assert HasZero(f, f.zero);
    if bits != [] {
      TimesSum(f, f.xt(a), f.xt(c), bits[1..]);
      assert Linear(f, a, c);
      assert Exchanges(f, Digit(f, bits[0], a), Times(f, f.xt(a), bits[1..]),
                       Digit(f, bits[0], c), Times(f, f.xt(c), bits[1..]));
    }
  }

  lemma {:induction false} TimesZero<T(!new)>(f: Shift<T>, bits: seq<bool>)
    requires Lawful(f)
    ensures Times(f, f.zero, bits) == f.zero
  {
    if bits != [] {
      TimesZero(f, bits[1..]);
      assert HasZero(f, f.zero);
    }
  }

  // Two multiplications commute, whatever is multiplied.
  lemma {:induction false} TimesCommute<T(!new)>(f: Shift<T>, a: T, b: seq<bool>, c: seq<bool>)
    requires Lawful(f)
    ensures Times(f, Times(f, a, b), c) == Times(f, Times(f, a, c), b)
  {
    if b == [] {
      TimesZero(f, c);
    } else {
      TimesCommute(f, f.xt(a), b[1..], c);
      TimesSum(f, Digit(f, b[0], a), Times(f, f.xt(a), b[1..]), c);
      TimesShift(f, a, c);
      TimesZero(f, c);
    }
  }
}
