// Base 128 varints (Protocol Buffers encoding specification): one specification, written and
// read with bit operations by the server, and with division and multiplication by the client.
// The lemmas about masks and shifts are what the two have in common: seven binary digits are
// a remainder and a quotient by 128.
module Varint {
  import opened Bits
  import opened KeyTree

  // Bytes are numbers below 256.
  type Buffer = seq<nat>

  predicate IsBuffer(buf: Buffer)
  {
    forall i :: 0 <= i < |buf| ==> buf[i] < 256
  }

  datatype Parsed<+T> = Parsed(value: T, size: nat) | Malformed

  // ------------------------------------------------------------------ specification

  function EncodeVarint(v: nat): (bytes: Buffer)
    ensures |bytes| > 0 && IsBuffer(bytes)
  {
    if v < 128 then [v] else [v % 128 + 128] + EncodeVarint(v / 128)
  }

  // Reads a varint of which k bytes have been read: at most ten in all.
  function ReadVarint(buf: Buffer, k: nat): (r: Parsed<nat>)
    ensures r.Parsed? ==> 0 < r.size <= |buf|
  {
    if buf == [] then Malformed
    else if buf[0] < 128 then Parsed(buf[0], 1)
    else if k >= 9 then Malformed
    else
      match ReadVarint(buf[1..], k + 1)
      case Malformed => Malformed
      case Parsed(rest, size) => Parsed(buf[0] % 128 + 128 * rest, size + 1)
  }

  // A varint is read exactly if one of the first ten bytes ends it, and up to the first that does.
  lemma {:induction false} VarintEnds(buf: Buffer, k: nat)
    requires k < 10
    ensures ReadVarint(buf, k).Parsed? <==> exists j: nat :: j < |buf| && k + j < 10 && buf[j] < 128
    ensures ReadVarint(buf, k).Parsed? ==>
      var last := ReadVarint(buf, k).size - 1;
      buf[last] < 128 && forall j :: 0 <= j < last ==> buf[j] >= 128
  {
    if buf != [] && buf[0] >= 128 && k < 9 {
      VarintEnds(buf[1..], k + 1);
      if j: nat :| j < |buf| && k + j < 10 && buf[j] < 128 {
        assert buf[1..][j - 1] < 128;
      }
      if j: nat :| j < |buf[1..]| && k + 1 + j < 10 && buf[1..][j] < 128 {
        assert buf[j + 1] < 128;
      }
    }
  }

  lemma {:induction false} VarintRoundTrip(v: nat, rest: Buffer, k: nat)
    requires k + |EncodeVarint(v)| <= 10
    ensures ReadVarint(EncodeVarint(v) + rest, k) == Parsed(v, |EncodeVarint(v)|)
    decreases v
  {
    var bytes := EncodeVarint(v);
    if v >= 128 {
      assert (bytes + rest)[1..] == EncodeVarint(v / 128) + rest;
      VarintRoundTrip(v / 128, rest, k + 1);
    }
  }

  // ------------------------------------------------------------------ doubling

  // v << n, one place at a time.
  function Doubled(v: nat, n: nat): nat
  {
    if n == 0 then v else 2 * Doubled(v, n - 1)
  }

  lemma {:induction false} DoubledIsShl(v: nat, n: nat)
    ensures Doubled(v, n) == Shl(v, n)
  {
    if n > 0 {
      DoubledIsShl(v, n - 1);
      DoubleProduct(v, Pow2(n - 1));
    } else {
      assert v * Pow2(0) == v;
    }
  }

  lemma {:induction false} DoubledAdds(a: nat, b: nat, n: nat)
    ensures Doubled(a + b, n) == Doubled(a, n) + Doubled(b, n)
    ensures Doubled(2 * a, n) == 2 * Doubled(a, n)
  {
    if n > 0 {
      DoubledAdds(a, b, n - 1);
    }
  }

  lemma {:induction false} DoubledMonotone(a: nat, b: nat, n: nat)
    requires a <= b
    ensures Doubled(a, n) <= Doubled(b, n)
  {
    if n > 0 {
      DoubledMonotone(a, b, n - 1);
    }
  }

  lemma SevenPlaces(v: nat, n: nat)
    ensures Doubled(v, n + 7) == 128 * Doubled(v, n)
  {
    assert Doubled(v, n + 2) == 4 * Doubled(v, n) && Doubled(v, n + 4) == 4 * Doubled(v, n + 2);
    assert Doubled(v, n + 6) == 4 * Doubled(v, n + 4);
  }

  // Seven bits to a byte: n bytes hold every number below 2^(7n).
  lemma {:induction false} VarintSize(v: nat, n: nat)
    requires n > 0 && v < Doubled(1, 7 * n)
    ensures |EncodeVarint(v)| <= n
    decreases n
  {
    SevenPlaces(1, 7 * (n - 1));
    if n > 1 && v >= 128 {
      VarintSize(v / 128, n - 1);
    }
  }

  // ------------------------------------------------------------------ bit operations

  function And(a: nat, b: nat): nat
  {
    if a == 0 || b == 0 then 0 else 2 * And(a / 2, b / 2) + (if a % 2 == 1 && b % 2 == 1 then 1 else 0)
  }

  // The last n digits.
  function Low(a: nat, n: nat): nat
  {
    if n == 0 then 0 else 2 * Low(a / 2, n - 1) + a % 2
  }

  lemma {:induction false} LowAndHigh(a: nat, n: nat)
    ensures a == Low(a, n) + Doubled(Shr(a, n), n) && Low(a, n) < Doubled(1, n)
    decreases n
  {
    if n > 0 {
      LowAndHigh(a / 2, n - 1);
      ShrHalf(a, n - 1);
    }
  }

  // Masking with n ones keeps the last n digits.
  lemma {:induction false} AndLow(a: nat, n: nat, ones: nat)
    requires ones + 1 == Doubled(1, n)
    ensures And(a, ones) == Low(a, n)
    decreases n
  {
    if n > 0 {
      AndLow(a / 2, n - 1, ones / 2);
      if a == 0 {
        LowAndHigh(0, n);
      }
    }
  }

  lemma {:induction false} AndBit(a: nat, n: nat, bit: nat)
    requires bit == Doubled(1, n)
    ensures And(a, bit) == if Shr(a, n) % 2 == 1 then bit else 0
    decreases n
  {
    if n > 0 {
      AndBit(a / 2, n - 1, bit / 2);
      ShrHalf(a, n - 1);
      if a == 0 {
        ShrZero(n);
      }
    } else if a > 0 {
      assert And(a / 2, 0) == 0;
    }
  }

  lemma {:induction false} ShrZero(n: nat)
    ensures Shr(0, n) == 0
  {
    if n > 0 {
      ShrZero(n - 1);
    }
  }

  // Numbers without a common digit are united by adding them.
  lemma {:induction false} OrDisjoint(a: nat, b: nat, n: nat)
    requires a < Doubled(1, n)
    ensures Or(a, Doubled(b, n)) == a + Doubled(b, n)
    decreases n
  {
    if n == 0 {
      OrZeroLeft(b);
    } else {
      OrDisjoint(a / 2, b, n - 1);
      OrDigit(a / 2, Doubled(b, n - 1), a % 2, 0);
    }
  }

  lemma {:induction false} OrZeroLeft(b: nat)
    ensures Or(0, b) == b
  {
    if b > 0 {
      OrZeroLeft(b / 2);
    }
  }

  lemma MaskSeven(a: nat, n: nat)
    requires n == 7
    ensures And(a, 127) == a % 128 && Shr(a, n) == a / 128
  {
    SevenPlaces(1, n - 7);
    SevenPlaces(Shr(a, n), n - 7);
    AndLow(a, n, 127);
    LowAndHigh(a, n);
    var low, high := Low(a, n), Shr(a, n);
    assert a == low + 128 * high && low < 128;
  }

  lemma TopBitSeven(a: nat, n: nat)
    requires n == 7 && a < 256
    ensures And(a, 128) != 0 <==> a >= 128
  {
    SevenPlaces(1, n - 7);
    AndBit(a, n, 128);
    MaskSeven(a, n);
  }

  lemma OrTopBit(a: nat, n: nat)
    requires n == 7
    ensures Or(a % 128, 128) == a % 128 + 128
  {
    SevenPlaces(1, n - 7);
    OrDisjoint(a % 128, 1, n);
  }

  // The masks and shifts of the codec.
  lemma SevenDigits(a: nat)
    ensures And(a, 0x7f) == a % 128 && Shr(a, 7) == a / 128
    ensures a < 256 ==> (And(a, 0x80) != 0 <==> a >= 128)
    ensures Or(a % 128, 0x80) == a % 128 + 128
  {
    var n: nat := 7;
    MaskSeven(a, n);
    OrTopBit(a, n);
    if a < 256 {
      TopBitSeven(a, n);
    }
  }

  // ------------------------------------------------------------------ wire.py

  // Appends a number; negative ones are refused.
  method EncVarint(value: int, out: Buffer) returns (r: Option<Buffer>)
    ensures r == if value < 0 then None else Some(out + EncodeVarint(value))
  {
    if value < 0 {
      return None;
    }
    var v: nat := value;
    var bytes := out;
    while true
      invariant bytes + EncodeVarint(v) == out + EncodeVarint(value)
      decreases v
    {
      SevenDigits(v);
      var b := And(v, 0x7f);
      v := Shr(v, 7);
      if v != 0 {
        bytes := bytes + [Or(b, 0x80)];
      } else {
        bytes := bytes + [b];
        return Some(bytes);
      }
    }
  }

  // What is read so far, put in front of what is still to be read.
  ghost function Continue(low: nat, k: nat, rest: Parsed<nat>): Parsed<nat>
  {
    match rest
    case Malformed => Malformed
    case Parsed(value, size) => Parsed(low + Doubled(value, 7 * k), size + k)
  }

  lemma ReadMore(buf: Buffer, k: nat, low: nat)
    requires buf != [] && buf[0] < 256 && k < 10
    ensures var next := low + Doubled(buf[0] % 128, 7 * k);
      Continue(low, k, ReadVarint(buf, k)) ==
        if buf[0] < 128 then Parsed(next, k + 1)
        else if k == 9 then Malformed
        else Continue(next, k + 1, ReadVarint(buf[1..], k + 1))
  {
    if buf[0] >= 128 && k < 9 {
      match ReadVarint(buf[1..], k + 1)
      case Malformed =>
      case Parsed(rest, _) =>
        DoubledAdds(buf[0] % 128, 128 * rest, 7 * k);
        DoubledSeven(rest, 7 * k);
        SevenPlaces(rest, 7 * k);
    }
  }

  lemma DoubledSeven(v: nat, n: nat)
    ensures Doubled(128 * v, n) == 128 * Doubled(v, n)
  {
    DoubledAdds(v, 0, n);
    DoubledAdds(2 * v, 0, n);
    DoubledAdds(4 * v, 0, n);
    DoubledAdds(8 * v, 0, n);
    DoubledAdds(16 * v, 0, n);
    DoubledAdds(32 * v, 0, n);
    DoubledAdds(64 * v, 0, n);
  }

  // k bytes of the varint at start are read, and low is their value.
  ghost predicate Reading(buf: Buffer, start: nat, k: nat, low: nat)
  {
    k < 10 && start + k <= |buf| && low < Doubled(1, 7 * k) &&
    Continue(low, k, ReadVarint(buf[start + k..], k)) == ReadVarint(buf[start..], 0)
  }

  lemma ReadStart(buf: Buffer, start: nat, k: nat)
    requires start <= |buf| && k == 0
    ensures Reading(buf, start, k, 0)
  {
    match ReadVarint(buf[start..], 0)
    case Malformed =>
    case Parsed(value, _) => assert Doubled(value, 7 * k) == value;
  }

  lemma DigitFits(low: nat, k: nat, digit: nat)
    requires low < Doubled(1, 7 * k) && digit < 128
    ensures low + Doubled(digit, 7 * k) < Doubled(1, 7 * (k + 1))
  {
    SevenPlaces(1, 7 * k);
    DoubledSeven(1, 7 * k);
    DoubledMonotone(digit, 127, 7 * k);
    DoubledAdds(127, 1, 7 * k);
  }

  lemma ReadNext(buf: Buffer, start: nat, k: nat, low: nat, b: nat, next: nat)
    requires Reading(buf, start, k, low) && start + k < |buf| && b == buf[start + k] < 256
    requires next == low + Doubled(b % 128, 7 * k)
    ensures b < 128 ==> ReadVarint(buf[start..], 0) == Parsed(next, k + 1)
    ensures b >= 128 && k == 9 ==> ReadVarint(buf[start..], 0) == Malformed
    ensures b >= 128 && k < 9 ==> Reading(buf, start, k + 1, next)
  {
    assert buf[start + k..][1..] == buf[start + (k + 1)..];
    ReadMore(buf[start + k..], k, low);
    DigitFits(low, k, b % 128);
  }

  lemma ReadPastEnd(buf: Buffer, start: nat, k: nat, low: nat)
    requires Reading(buf, start, k, low) && start + k == |buf|
    ensures ReadVarint(buf[start..], 0) == Malformed
  {
  }

  // b & 0x80
  predicate HasMore(b: nat)
    requires b < 256
    ensures HasMore(b) <==> b >= 128
  {
    SevenDigits(b);
    And(b, 0x80) != 0
  }

  method DecVarint(buf: Buffer, start: nat) returns (r: Parsed<nat>)
    requires IsBuffer(buf) && start <= |buf|
    ensures r == ReadVarint(buf[start..], 0)
  {
    var result: nat, shift: nat, pos: nat := 0, 0, start;
    ghost var k: nat := 0;
    ReadStart(buf, start, k);
    while true
      invariant Reading(buf, start, k, result) && shift == 7 * k && pos == start + k
      decreases |buf| - pos
    {
      if pos >= |buf| {
        ReadPastEnd(buf, start, k, result);
        return Malformed;
      }
      var b := buf[pos];
      ReadNext(buf, start, k, result, b, result + Doubled(b % 128, 7 * k));
      pos := pos + 1;
      result := AddDigit(result, b, shift);
      if !HasMore(b) {
        return Parsed(result, pos - start);
      }
      shift := shift + 7;
      if shift > 63 {
        return Malformed;
      }
      k := k + 1;
    }
  }

  // result |= (b & 0x7f) << shift
  method AddDigit(result: nat, b: nat, shift: nat) returns (r: nat)
    requires result < Doubled(1, shift)
    ensures r == result + Doubled(b % 128, shift)
  {
    SevenDigits(b);
    OrDisjoint(result, b % 128, shift);
    DoubledIsShl(b % 128, shift);
    r := Or(result, Shl(And(b, 0x7f), shift));
  }

  // ------------------------------------------------------------------ proto.js

  const MAX_SAFE_INTEGER := 0x1f_ffff_ffff_ffff

  method PushVarint(out: Buffer, value: int) returns (r: Option<Buffer>)
    ensures r == if 0 <= value <= MAX_SAFE_INTEGER then Some(out + EncodeVarint(value)) else None
  {
    if value < 0 || value > MAX_SAFE_INTEGER {
      return None;
    }
    var v: nat := value;
    var bytes := out;
    while v >= 0x80
      invariant bytes + EncodeVarint(v) == out + EncodeVarint(value)
      decreases v
    {
      SevenDigits(v);
      bytes := bytes + [Or(v % 0x80, 0x80)];
      v := v / 0x80;
    }
    r := Some(bytes + [v]);
  }

  // The factor of the digit to come: 128 for every byte read, and past 2^63 after the tenth.
  lemma Factor(k: nat)
    requires k <= 10
    ensures Doubled(1, 7 * k) > 0x8000_0000_0000_0000 <==> k == 10
  {
    var n: nat := 63;
    SevenPlaces(1, n - 7);
    SevenPlaces(1, n - 14);
    SevenPlaces(1, n - 21);
    SevenPlaces(1, n - 28);
    SevenPlaces(1, n - 35);
    SevenPlaces(1, n - 42);
    SevenPlaces(1, n - 49);
    SevenPlaces(1, n - 56);
    SevenPlaces(1, n - 63);
    SevenPlaces(1, n);
    if k < 10 {
      DoubledGrows(7 * k, n);
    }
  }

  lemma {:induction false} DoubledGrows(n: nat, m: nat)
    requires n <= m
    ensures 0 < Doubled(1, n) <= Doubled(1, m)
    decreases m
  {
    if n < m {
      DoubledGrows(n, m - 1);
    } else if n > 0 {
      DoubledGrows(n - 1, m - 1);
    }
  }

  method ReadVarintJs(buf: Buffer, start: nat) returns (r: Parsed<nat>)
    requires IsBuffer(buf) && start <= |buf|
    ensures r == ReadVarint(buf[start..], 0)
  {
    var result: nat, mul: nat, pos: nat := 0, 1, start;
    ghost var k: nat := 0;
    ReadStart(buf, start, k);
    while true
      invariant Reading(buf, start, k, result) && mul == Doubled(1, 7 * k) && pos == start + k
      decreases |buf| - pos
    {
      if pos >= |buf| {
        ReadPastEnd(buf, start, k, result);
        return Malformed;
      }
      var b := buf[pos];
      ReadNext(buf, start, k, result, b, result + Doubled(b % 128, 7 * k));
      pos := pos + 1;
      result := AddDigitJs(result, b, mul, 7 * k);
      if !HasMore(b) {
        return Parsed(result, pos - start);
      }
      Factor(k + 1);
      SevenPlaces(1, 7 * k);
      mul := mul * 0x80;
      if mul > 0x8000_0000_0000_0000 {
        return Malformed;
      }
      k := k + 1;
    }
  }

  lemma {:induction false} DoubledIsProduct(v: nat, n: nat)
    ensures v * Doubled(1, n) == Doubled(v, n)
  {
    if n > 0 {
      DoubledIsProduct(v, n - 1);
      DoubleProduct(v, Doubled(1, n - 1));
    }
  }

  // result += (b & 0x7f) * mul
  method AddDigitJs(result: nat, b: nat, mul: nat, ghost shift: nat) returns (r: nat)
    requires mul == Doubled(1, shift)
    ensures r == result + Doubled(b % 128, shift)
  {
    SevenDigits(b);
    var digit := And(b, 0x7f);
    DoubledIsProduct(digit, shift);
    r := result + digit * mul;
  }
}
