// Bytes, their shift modulo x^8 + x^4 + x^3 + x + 1, and the powers of x + 1.  Multiplying
// by x + 1 again and again leads through all non-zero bytes: it is not back at one before
// the 255th step.  The walk is followed in strides of five and fifteen steps, each of them
// short enough to be computed.
module BytePowers {

  type Byte = bv8

  function Xtime(a: Byte): Byte
  {
    if a & 0x80 != 0 then (a << 1) ^ 0x1b else a << 1
  }

  // v multiplied by x + 1.
  function Triple(v: Byte): Byte
  {
    Xtime(v) ^ v
  }

  function Walk(v: Byte, n: nat): Byte
    decreases n
  {
    if n == 0 then v else Walk(Triple(v), n - 1)
  }

  // None of the next n powers is one.
  predicate Clear(v: Byte, n: nat)
    decreases n
  {
    n == 0 || (Triple(v) != 1 && Clear(Triple(v), n - 1))
  }

  lemma {:induction false} WalkOn(v: Byte, n: nat, m: nat)
    ensures Walk(v, n + m) == Walk(Walk(v, n), m)
    ensures Clear(v, n) && Clear(Walk(v, n), m) ==> Clear(v, n + m)
    decreases n
  {
    if n > 0 {
      WalkOn(Triple(v), n - 1, m);
    }
  }

  // Five steps written out.
  function Five(v: Byte): Byte
  {
    var a := (if v & 0x80 != 0 then 0x1b else 0) ^ (v << 1) ^ v;
    var b := (if a & 0x80 != 0 then 0x1b else 0) ^ (a << 1) ^ a;
    var c := (if b & 0x80 != 0 then 0x1b else 0) ^ (b << 1) ^ b;
    var d := (if c & 0x80 != 0 then 0x1b else 0) ^ (c << 1) ^ c;
    (if d & 0x80 != 0 then 0x1b else 0) ^ (d << 1) ^ d
  }

  predicate FiveClear(v: Byte)
  {
    var a := (if v & 0x80 != 0 then 0x1b else 0) ^ (v << 1) ^ v;
    var b := (if a & 0x80 != 0 then 0x1b else 0) ^ (a << 1) ^ a;
    var c := (if b & 0x80 != 0 then 0x1b else 0) ^ (b << 1) ^ b;
    var d := (if c & 0x80 != 0 then 0x1b else 0) ^ (c << 1) ^ c;
    a != 1 && b != 1 && c != 1 && d != 1 && Five(v) != 1
  }

  lemma TripleIs(v: Byte)
    ensures Triple(v) == (if v & 0x80 != 0 then 0x1b else 0) ^ (v << 1) ^ v
  {
  }

  lemma FiveTriples(v: Byte) returns (a: Byte, b: Byte, c: Byte, d: Byte, e: Byte)
    ensures a == Triple(v) && b == Triple(a) && c == Triple(b) && d == Triple(c) && e == Triple(d)
    ensures e == Five(v) && (FiveClear(v) <==> a != 1 && b != 1 && c != 1 && d != 1 && e != 1)
  {
    a, b := Triple(v), Triple(Triple(v));
    c := Triple(b);
    d := Triple(c);
    e := Triple(d);
    TripleIs(v);
    TripleIs(a);
    TripleIs(b);
    TripleIs(c);
    TripleIs(d);
  }

  lemma FiveSteps(v: Byte)
    ensures Walk(v, 5) == Five(v) && Clear(v, 5) == FiveClear(v)
  {
    var a, b, c, d, e := FiveTriples(v);
    assert Walk(c, 2) == e && Clear(c, 2) == (d != 1 && e != 1);
  }

  ghost predicate Reaches(n: nat, v: Byte)
  {
    Walk(1, n) == v && Clear(1, n)
  }

  // From one power to the one fifteen steps on.
  lemma Fifteen(n: nat, v: Byte, w: Byte) returns (m: nat)
    requires Reaches(n, v) && FiveClear(v) && FiveClear(Five(v)) && FiveClear(Five(Five(v)))
    requires Five(Five(Five(v))) == w
    ensures m == n + 15 && Reaches(m, w)
  {
    m := n + 15;
    FiveSteps(v);
    FiveSteps(Five(v));
    FiveSteps(Five(Five(v)));
    WalkOn(1, n, 5);
    WalkOn(1, n + 5, 5);
    WalkOn(1, n + 10, 5);
  }

  // The powers of x + 1 return to one after 255 steps, and not before.
  lemma Cycle(n: nat)
    requires n == 255
    ensures Clear(1, n - 1) && Walk(1, n) == 1
  {
    var m: nat := 0;
    assert Reaches(m, 1);
    m := Fifteen(m, 0x01, 0x35);
    m := Fifteen(m, 0x35, 0x66);
    m := Fifteen(m, 0x66, 0xab);
    m := Fifteen(m, 0xab, 0xd3);
    m := Fifteen(m, 0xd3, 0x08);
    m := Fifteen(m, 0x08, 0xb3);
    m := Fifteen(m, 0xb3, 0x1d);
    m := Fifteen(m, 0x1d, 0x2f);
    m := Fifteen(m, 0x2f, 0xc2);
    m := Fifteen(m, 0xc2, 0x40);
    m := Fifteen(m, 0x40, 0xef);
    m := Fifteen(m, 0xef, 0xe8);
    m := Fifteen(m, 0xe8, 0x63);
    m := Fifteen(m, 0x63, 0x4a);
    m := Fifteen(m, 0x4a, 0x36);
    m := Fifteen(m, 0x36, 0x39);
    LastFifteen(m, n);
  }

  lemma LastFifteen(m: nat, n: nat)
    requires Reaches(m, 0x39) && n == m + 15
    ensures Clear(1, n - 1) && Walk(1, n) == 1
  {
    FiveSteps(0x39);
    FiveSteps(0x97);
    FiveSteps(0x6c);
    WalkOn(1, m, 5);
    WalkOn(1, m + 5, 5);
    WalkOn(1, m + 10, 4);
    WalkOn(1, m + 10, 5);
  }
}
