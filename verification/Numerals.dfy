/**
 Positional numerals in any base: big-endian digit lists without a leading zero, and the
 decimal and byte strings built from them.
 */
module Numerals {

  type byte = x: int | 0 <= x < 256

  /** The number a big-endian digit list denotes; leading zeros are allowed. */
  function Val(ds: seq<nat>, base: nat): nat
    requires base >= 2
  {
    if |ds| == 0 then 0 else Val(ds[..|ds| - 1], base) * base + ds[|ds| - 1]
  }

  predicate AreDigits(ds: seq<nat>, base: nat) {
    forall i :: 0 <= i < |ds| ==> ds[i] < base
  }

  predicate Minimal(ds: seq<nat>) {
    ds != [] ==> ds[0] != 0
  }

  /** The minimal big-endian digits of x: none at all for zero. */
  function Digits(x: nat, base: nat): (ds: seq<nat>)
    requires base >= 2
    ensures AreDigits(ds, base) && Minimal(ds)
    ensures x > 0 ==> ds != []
  {
    if x == 0 then [] else
      QuotientShrinks(x, base);
      Digits(x / base, base) + [x % base]
  }

  lemma QuotientShrinks(x: nat, base: nat)
    requires x > 0 && base >= 2
    ensures x / base < x
    ensures x < base ==> x % base == x
    ensures x >= base ==> x / base > 0
  {
    assert x == (x / base) * base + x % base;
    if x / base >= x {
      assert (x / base) * base >= x * 2 by { MulMono(x, x / base, 2, base); }
      assert false;
    }
    if x / base == 0 { assert x == x % base; }
    if x < base && x / base >= 1 {
      MulMono(1, x / base, base, base);
      assert false;
    }
    if x < base { assert x / base == 0; }
  }

  lemma MulMono(a: nat, b: nat, c: nat, d: nat)
    requires a <= b && c <= d
    ensures a * c <= b * d
  {
    assert a * c <= b * c;
    assert b * c <= b * d;
  }

  lemma MultipleIsLarge(k: int, base: int)
    requires base > 0
    ensures k >= 1 ==> k * base >= base
    ensures k <= -1 ==> k * base <= -base
  {
    if k >= 1 { assert (k - 1) * base >= 0; }
    if k <= -1 { assert (-1 - k) * base >= 0; }
  }

  lemma DivModUnique(q: nat, r: nat, base: nat)
    requires r < base
    ensures (q * base + r) / base == q && (q * base + r) % base == r
  {
    var x := q * base + r;
    var k := x / base - q;
    assert k * base == r - x % base by {
      assert x == (x / base) * base + x % base;
      assert (x / base) * base == (k + q) * base == k * base + q * base;
    }
    MultipleIsLarge(k, base);
  }

  lemma ValSnoc(ds: seq<nat>, d: nat, base: nat)
    requires base >= 2
    ensures Val(ds + [d], base) == Val(ds, base) * base + d
  {
    assert (ds + [d])[..|ds|] == ds;
  }

  lemma DigitsStep(x: nat, base: nat)
    requires x > 0 && base >= 2
    ensures Digits(x, base) == Digits(x / base, base) + [x % base]
  {
  }

  lemma DivModSum(x: nat, base: nat)
    requires base > 0
    ensures (x / base) * base + x % base == x
  {
  }

  lemma {:induction false} ValOfDigits(x: nat, base: nat)
    requires base >= 2
    ensures Val(Digits(x, base), base) == x
  {
    if x > 0 {
      hide *;
      DigitsStep(x, base);
      DivModSum(x, base);
      QuotientShrinks(x, base);
      ValOfDigits(x / base, base);
      ValSnoc(Digits(x / base, base), x % base, base);
    }
  }

  lemma {:induction false} DigitsOfVal(ds: seq<nat>, base: nat)
    requires base >= 2 && AreDigits(ds, base) && Minimal(ds)
    ensures Digits(Val(ds, base), base) == ds
    ensures ds != [] ==> Val(ds, base) > 0
  {
    if ds != [] {
      var front, last := ds[..|ds| - 1], ds[|ds| - 1];
      DigitsOfVal(front, base);
      DivModUnique(Val(front, base), last, base);
      if front != [] {
        MulMono(1, Val(front, base), base, base);
      }
      assert ds == front + [last];
    }
  }

  /** Leading zeros do not change the value. */
  lemma {:induction false} ValOfZeros(z: nat, ds: seq<nat>, base: nat)
    requires base >= 2
    ensures Val(seq(z, _ => 0) + ds, base) == Val(ds, base)
    decreases |ds|, z
  {
    var s := seq(z, _ => 0) + ds;
    if ds != [] {
      assert s[..|s| - 1] == seq(z, _ => 0) + ds[..|ds| - 1];
      ValOfZeros(z, ds[..|ds| - 1], base);
    } else if z > 0 {
      assert s[..|s| - 1] == seq(z - 1, _ => 0) + ds;
      ValOfZeros(z - 1, ds, base);
    } else {
      assert s == ds;
    }
  }

  function Power(base: nat, k: nat): nat {
    if k == 0 then 1 else base * Power(base, k - 1)
  }

  /** The sum of the digits by their places: each counts as often as there are places to its right. */
  function Worth(ds: seq<nat>, base: nat): nat {
    if ds == [] then 0 else ds[0] * Power(base, |ds| - 1) + Worth(ds[1..], base)
  }

  lemma {:induction false} WorthSnoc(ds: seq<nat>, d: nat, base: nat)
    ensures Worth(ds + [d], base) == Worth(ds, base) * base + d
  {
    if ds == [] {
      assert Worth([], base) == 0 && Power(base, 0) == 1 && (([] + [d])[1..]) == [];
    } else {
      assert (ds + [d])[1..] == ds[1..] + [d];
      WorthSnoc(ds[1..], d, base);
      ShiftPlace(ds[0], Power(base, |ds| - 1), Worth(ds[1..], base), base);
    }
  }

  lemma ShiftPlace(d: nat, p: nat, w: nat, base: nat)
    ensures d * (base * p) + w * base == (d * p + w) * base
  {
  }

  /** The value of a digit list is the sum of its digits by their places. */
  lemma {:induction false} ValIsWorth(ds: seq<nat>, base: nat)
    requires base >= 2
    ensures Val(ds, base) == Worth(ds, base)
  {
    if ds != [] {
      var front, last := ds[..|ds| - 1], ds[|ds| - 1];
      ValIsWorth(front, base);
      WorthSnoc(front, last, base);
      assert ds == front + [last];
    }
  }

  function Pow2(k: nat): (p: nat)
    ensures p > 0
  {
    if k == 0 then 1 else 2 * Pow2(k - 1)
  }

  // ---- decimal strings ----

  function DecDigit(d: nat): (c: char)
    requires d < 10
  {
    '0' + d as char
  }

  function DecChars(ds: seq<nat>): string
    requires AreDigits(ds, 10)
  {
    seq(|ds|, i requires 0 <= i < |ds| => DecDigit(ds[i]))
  }

  /** The decimal text of n, as both format!("{}") and Sprintf("%d") print it. */
  function Decimal(n: nat): string {
    if n == 0 then "0" else DecChars(Digits(n, 10))
  }

  predicate IsDecChar(c: char) {
    '0' <= c <= '9'
  }

  lemma DecimalChars(n: nat)
    ensures Decimal(n) != []
    ensures forall i :: 0 <= i < |Decimal(n)| ==> IsDecChar(Decimal(n)[i])
  {
  }

  lemma DecCharsInjective(a: seq<nat>, b: seq<nat>)
    requires AreDigits(a, 10) && AreDigits(b, 10)
    requires DecChars(a) == DecChars(b)
    ensures a == b
  {
    assert |a| == |DecChars(a)| == |DecChars(b)| == |b|;
    forall i | 0 <= i < |a| ensures a[i] == b[i] {
      assert DecChars(a)[i] == DecChars(b)[i];
    }
  }

  lemma PositiveHasNoLeadingZero(n: nat)
    requires n > 0
    ensures Decimal(n)[0] != '0'
  {
    var ds := Digits(n, 10);
    assert DecChars(ds)[0] == DecDigit(ds[0]);
  }

  /** Two numbers with the same decimal text are the same number. */
  lemma DecimalInjective(m: nat, n: nat)
    requires Decimal(m) == Decimal(n)
    ensures m == n
  {
    if m > 0 { PositiveHasNoLeadingZero(m); }
    if n > 0 { PositiveHasNoLeadingZero(n); }
    if m > 0 && n > 0 {
      DecCharsInjective(Digits(m, 10), Digits(n, 10));
      ValOfDigits(m, 10);
      ValOfDigits(n, 10);
    }
  }

  function DecValue(c: char): nat
    requires IsDecChar(c)
  {
    c as int - '0' as int
  }

  function DecValues(s: string): (ds: seq<nat>)
    requires forall i :: 0 <= i < |s| ==> IsDecChar(s[i])
    ensures |ds| == |s|
  {
    seq(|s|, i requires 0 <= i < |s| => DecValue(s[i]))
  }

  /** The text of a number: decimal digits whose places add up to it, without a leading zero but for zero. */
  lemma DecimalReads(n: nat)
    ensures var s := Decimal(n);
            && (forall i :: 0 <= i < |s| ==> IsDecChar(s[i])) && Worth(DecValues(s), 10) == n
            && |s| >= 1 && (s[0] == '0' ==> s == "0")
  {
    if n == 0 {
      assert DecValues("0") == [0];
      assert Worth([0], 10) == 0 * Power(10, 0) + Worth([], 10);
    } else {
      PositiveHasNoLeadingZero(n);
      assert DecValues(Decimal(n)) == Digits(n, 10);
      ValOfDigits(n, 10);
      ValIsWorth(Digits(n, 10), 10);
    }
  }
}
