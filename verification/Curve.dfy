/**
 The prime-order group the range proof works in, as an algebraic structure: points with an
 addition, an integer multiple, two generators, a wire encoding and a group order. Nothing about
 edwards25519 is used beyond the laws listed in Lawful.
 */
module Curve {
  import opened Numerals
  import opened Wrappers

  /** A 32-byte wire value, read as a number. */
  type Wire = nat

  datatype Curve<!P> = Curve(
    q: nat,
    zero: P,
    add: (P, P) -> P,
    mul: (int, P) -> P,
    g: P,
    h: P,
    encode: P -> Wire,
    decode: Wire -> Option<P>)

  /** Every law at every instance; named instances keep the solver from chaining the laws by itself. */
  ghost predicate Lawful<P(!new)>(c: Curve<P>) {
    && c.q > 0
    && (forall a, b :: Commutes(c, a, b))
    && (forall a, b, d :: Associates(c, a, b, d))
    && (forall a :: Units(c, a))
    && (forall m, n, a :: Composes(c, m, n, a))
    && (forall m, n, a :: AddsScalars(c, m, n, a))
    && (forall m, a, b :: AddsPoints(c, m, a, b))
    && (forall a :: Annihilates(c, a))
    && (forall a :: Decodable(c, a))
  }

  ghost predicate Commutes<P>(c: Curve<P>, a: P, b: P) {
    c.add(a, b) == c.add(b, a)
  }

  ghost predicate Associates<P>(c: Curve<P>, a: P, b: P, d: P) {
    c.add(c.add(a, b), d) == c.add(a, c.add(b, d))
  }

  ghost predicate Units<P>(c: Curve<P>, a: P) {
    c.add(c.zero, a) == a && c.mul(0, a) == c.zero && c.mul(1, a) == a
  }

  ghost predicate Composes<P>(c: Curve<P>, m: int, n: int, a: P) {
    c.mul(m, c.mul(n, a)) == c.mul(m * n, a)
  }

  ghost predicate AddsScalars<P>(c: Curve<P>, m: int, n: int, a: P) {
    c.add(c.mul(m, a), c.mul(n, a)) == c.mul(m + n, a)
  }

  ghost predicate AddsPoints<P>(c: Curve<P>, m: int, a: P, b: P) {
    c.mul(m, c.add(a, b)) == c.add(c.mul(m, a), c.mul(m, b))
  }

  ghost predicate Annihilates<P>(c: Curve<P>, a: P) {
    c.mul(c.q, a) == c.zero
  }

  ghost predicate Decodable<P>(c: Curve<P>, a: P) {
    c.decode(c.encode(a)) == Some(a)
  }

  // ---- scalars modulo the group order ----

  function ScAdd(q: nat, a: int, b: int): nat
    requires q > 0
  {
    (a + b) % q
  }

  function ScSub(q: nat, a: int, b: int): nat
    requires q > 0
  {
    (a - b) % q
  }

  function ScMul(q: nat, a: int, b: int): nat
    requires q > 0
  {
    a * b % q
  }

  function Sub<P>(c: Curve<P>, a: P, b: P): P {
    c.add(a, c.mul(-1, b))
  }

  /** The Pedersen commitment x*G + r*H. */
  function Com<P>(c: Curve<P>, x: int, r: int): P {
    c.add(c.mul(x, c.g), c.mul(r, c.h))
  }

  // ---- the laws, one instance at a time ----

  lemma AddComm<P(!new)>(c: Curve<P>, a: P, b: P)
    requires Lawful(c)
    ensures c.add(a, b) == c.add(b, a)
  {
    assert Commutes(c, a, b);
  }

  lemma AddAssoc<P(!new)>(c: Curve<P>, a: P, b: P, d: P)
    requires Lawful(c)
    ensures c.add(c.add(a, b), d) == c.add(a, c.add(b, d))
  {
    assert Associates(c, a, b, d);
  }

  lemma AddZero<P(!new)>(c: Curve<P>, a: P)
    requires Lawful(c)
    ensures c.add(c.zero, a) == a && c.add(a, c.zero) == a
  {
    assert Units(c, a);
    assert Commutes(c, a, c.zero);
  }

  lemma MulMul<P(!new)>(c: Curve<P>, m: int, n: int, a: P)
    requires Lawful(c)
    ensures c.mul(m, c.mul(n, a)) == c.mul(m * n, a)
  {
    assert Composes(c, m, n, a);
  }

  lemma MulPlus<P(!new)>(c: Curve<P>, m: int, n: int, a: P)
    requires Lawful(c)
    ensures c.add(c.mul(m, a), c.mul(n, a)) == c.mul(m + n, a)
  {
    assert AddsScalars(c, m, n, a);
  }

  lemma MulAdd<P(!new)>(c: Curve<P>, m: int, a: P, b: P)
    requires Lawful(c)
    ensures c.mul(m, c.add(a, b)) == c.add(c.mul(m, a), c.mul(m, b))
  {
    assert AddsPoints(c, m, a, b);
  }

  lemma MulUnits<P(!new)>(c: Curve<P>, a: P)
    requires Lawful(c)
    ensures c.mul(0, a) == c.zero && c.mul(1, a) == a
  {
    assert Units(c, a);
  }

  lemma OrderLaw<P(!new)>(c: Curve<P>, a: P)
    requires Lawful(c)
    ensures c.mul(c.q, a) == c.zero
  {
    assert Annihilates(c, a);
  }

  /** A multiple of the group order adds nothing. */
  lemma MulOrder<P(!new)>(c: Curve<P>, k: int, a: P)
    requires Lawful(c)
    ensures c.mul(k * c.q, a) == c.zero
  {
    hide Lawful;
    OrderLaw(c, a);
    MulUnits(c, a);
    MulMul(c, k, c.q, a);
    MulMul(c, k, 0, a);
  }

  lemma Decodes<P(!new)>(c: Curve<P>, a: P)
    requires Lawful(c)
    ensures c.decode(c.encode(a)) == Some(a)
  {
    assert Decodable(c, a);
  }

  // ---- consequences ----

  /** Scalars count modulo the group order. */
  lemma MulMod<P(!new)>(c: Curve<P>, k: int, a: P)
    requires Lawful(c)
    ensures c.q > 0 && c.mul(k % c.q, a) == c.mul(k, a)
  {
    hide *;
    OrderPositive(c);
    var t := k / c.q;
    DivMod(k, c.q);
    MulPlus(c, k % c.q, t * c.q, a);
    MulOrder(c, t, a);
    AddZero(c, c.mul(k % c.q, a));
  }

  lemma OrderPositive<P(!new)>(c: Curve<P>)
    requires Lawful(c)
    ensures c.q > 0
  {
  }

  lemma DivMod(k: int, q: nat)
    requires q > 0
    ensures k % q + (k / q) * q == k
  {
  }

  lemma MulScAdd<P(!new)>(c: Curve<P>, m: int, n: int, a: P)
    requires Lawful(c) && c.q > 0
    ensures c.mul(ScAdd(c.q, m, n), a) == c.add(c.mul(m, a), c.mul(n, a))
  {
    hide Lawful;
    MulMod(c, m + n, a);
    MulPlus(c, m, n, a);
  }

  lemma MulScMul<P(!new)>(c: Curve<P>, m: int, n: int, a: P)
    requires Lawful(c) && c.q > 0
    ensures c.mul(ScMul(c.q, m, n), a) == c.mul(m, c.mul(n, a))
  {
    hide Lawful;
    MulMod(c, m * n, a);
    MulMul(c, m, n, a);
  }

  lemma ScSubBack(q: nat, e: int, f: int)
    requires 0 <= f < q
    ensures ScSub(q, e, ScSub(q, e, f)) == f
  {
    DivMod(e - f, q);
    var t := (e - f) / q;
    assert e - (e - f) % q == f + t * q;
    ModOfShift(f, t, q);
  }

  lemma ModOfShift(f: int, t: int, q: nat)
    requires 0 <= f < q
    ensures (f + t * q) % q == f
  {
    var x := f + t * q;
    DivMod(x, q);
    assert (t - x / q) * q == x % q - f;
    MultipleIsLarge(t - x / q, q);
  }

  lemma AddSwap<P(!new)>(c: Curve<P>, a: P, b: P, d: P, e: P)
    requires Lawful(c)
    ensures c.add(c.add(a, b), c.add(d, e)) == c.add(c.add(a, d), c.add(b, e))
  {
    hide *;
    AddAssoc(c, a, b, c.add(d, e));
    AddAssoc(c, b, d, e);
    AddComm(c, b, d);
    AddAssoc(c, d, b, e);
    AddAssoc(c, a, d, c.add(b, e));
  }

  /** Commitments add componentwise. */
  lemma ComAdd<P(!new)>(c: Curve<P>, x: int, r: int, y: int, s: int)
    requires Lawful(c)
    ensures c.add(Com(c, x, r), Com(c, y, s)) == Com(c, x + y, r + s)
  {
    AddSwap(c, c.mul(x, c.g), c.mul(r, c.h), c.mul(y, c.g), c.mul(s, c.h));
    MulPlus(c, x, y, c.g);
    MulPlus(c, r, s, c.h);
    hide Lawful;
  }

  /** Commitments scale componentwise. */
  lemma ComMul<P(!new)>(c: Curve<P>, k: int, x: int, r: int)
    requires Lawful(c)
    ensures c.mul(k, Com(c, x, r)) == Com(c, k * x, k * r)
  {
    hide Lawful;
    MulAdd(c, k, c.mul(x, c.g), c.mul(r, c.h));
    MulMul(c, k, x, c.g);
    MulMul(c, k, r, c.h);
  }

  lemma ComBlind<P(!new)>(c: Curve<P>, r: int)
    requires Lawful(c)
    ensures Com(c, 0, r) == c.mul(r, c.h)
  {
    hide Lawful;
    MulUnits(c, c.g);
    AddZero(c, c.mul(r, c.h));
  }

  lemma ComZero<P(!new)>(c: Curve<P>)
    requires Lawful(c)
    ensures Com(c, 0, 0) == c.zero
  {
    hide Lawful;
    ComBlind(c, 0);
    MulUnits(c, c.h);
  }

  lemma ComGenerator<P(!new)>(c: Curve<P>)
    requires Lawful(c)
    ensures Com(c, 1, 0) == c.g
  {
    hide Lawful;
    MulUnits(c, c.g);
    MulUnits(c, c.h);
    AddZero(c, c.g);
  }

  lemma ComSub<P(!new)>(c: Curve<P>, x: int, r: int, y: int, s: int)
    requires Lawful(c)
    ensures Sub(c, Com(c, x, r), Com(c, y, s)) == Com(c, x - y, r - s)
  {
    hide Lawful, Com;
    ComMul(c, -1, y, s);
    ComAdd(c, x, r, -1 * y, -1 * s);
  }

  lemma ComMod<P(!new)>(c: Curve<P>, x: int, r: int)
    requires Lawful(c)
    ensures c.q > 0 && Com(c, x % c.q, r) == Com(c, x, r) && Com(c, x, r % c.q) == Com(c, x, r)
  {
    hide Lawful;
    MulMod(c, x, c.g);
    MulMod(c, r, c.h);
  }

  /** a - b + b == a. */
  lemma SubAdd<P(!new)>(c: Curve<P>, a: P, b: P)
    requires Lawful(c)
    ensures c.add(Sub(c, a, b), b) == a
  {
    hide Lawful;
    AddAssoc(c, a, c.mul(-1, b), b);
    MulUnits(c, b);
    MulPlus(c, -1, 1, b);
    AddZero(c, a);
  }

  /** a + b - b == a. */
  lemma AddCancel<P(!new)>(c: Curve<P>, a: P, b: P)
    requires Lawful(c)
    ensures Sub(c, c.add(a, b), b) == a
  {
    hide Lawful;
    AddAssoc(c, a, b, c.mul(-1, b));
    MulUnits(c, b);
    MulPlus(c, 1, -1, b);
    AddZero(c, a);
  }

  // ---- inverses modulo a prime ----

  ghost predicate IsPrime(q: nat) {
    q > 1 && forall d :: 1 < d < q ==> q % d != 0
  }

  /** A number whose product with d is 1 modulo the prime q. */
  ghost function Inverse(d: nat, q: nat): int
    requires IsPrime(q) && 0 < d < q
    decreases d
  {
    if d == 1 then 1 else -(q / d) * Inverse(q % d, q)
  }

  /** Multiplying by d and then by its inverse changes nothing. */
  lemma {:induction false} InverseCancels<P(!new)>(c: Curve<P>, d: nat, a: P)
    requires Lawful(c) && IsPrime(c.q) && 0 < d < c.q
    ensures c.mul(Inverse(d, c.q), c.mul(d, a)) == a
    decreases d
  {
    hide Lawful;
    if d == 1 {
      MulUnits(c, a);
    } else {
      var r := c.q % d;
      var inner := Inverse(r, c.q);
      InverseCancels(c, r, a);
      assert Inverse(d, c.q) == -(c.q / d) * inner;
      InverseExpands(c, d, inner, a);
    }
  }

  lemma InverseExpands<P(!new)>(c: Curve<P>, d: nat, inner: int, a: P)
    requires Lawful(c) && d > 0
    ensures c.mul(-(c.q / d) * inner, c.mul(d, a)) == c.mul(inner, c.mul(c.q % d, a))
  {
    hide *;
    var r := c.q % d;
    MulMul(c, -(c.q / d) * inner, d, a);
    MulMul(c, inner, r, a);
    InverseStep(c.q, d, inner);
    MulPlus(c, inner * r, (-inner) * c.q, a);
    MulOrder(c, -inner, a);
    AddZero(c, c.mul(inner * r, a));
  }

  lemma InverseStep(q: nat, d: nat, inner: int)
    requires d > 0
    ensures (-(q / d) * inner) * d == inner * (q % d) + (-inner) * q
  {
    var k, r := q / d, q % d;
    assert q == d * k + r;
    assert (-k * inner) * d == -inner * (d * k);
    assert inner * r + (-inner) * (d * k + r) == -inner * (d * k) by {
      assert (-inner) * (d * k + r) == (-inner) * (d * k) + (-inner) * r;
    }
  }

  // ---- the laws are consistent: the integers modulo a prime satisfy them ----

  const ORDER := 5

  type Residue = x: int | 0 <= x < ORDER

  function ResidueAdd(a: Residue, b: Residue): Residue {
    (a + b) % ORDER
  }

  function ResidueMul(m: int, a: Residue): Residue {
    m * a % ORDER
  }

  function ResidueEncode(a: Residue): Wire {
    a
  }

  function ResidueDecode(w: Wire): Option<Residue> {
    if w < ORDER then Some(w) else None
  }

  function Residues(): Curve<Residue> {
    Curve<Residue>.Curve(ORDER, 0, ResidueAdd, ResidueMul, 1, 2, ResidueEncode, ResidueDecode)
  }

  lemma ModShift(a: int, t: int, q: nat)
    requires q > 0
    ensures (a + t * q) % q == a % q
  {
    DivMod(a, q);
    assert a + t * q == a % q + (a / q + t) * q;
    ModOfShift(a % q, a / q + t, q);
  }

  lemma ModInner(m: int, x: int, q: nat)
    requires q > 0
    ensures m * (x % q) % q == m * x % q
  {
    DivMod(x, q);
    assert m * x == m * (x % q) + (m * (x / q)) * q;
    ModShift(m * (x % q), m * (x / q), q);
  }

  lemma ModSum(x: int, y: int, q: nat)
    requires q > 0
    ensures (x % q + y % q) % q == (x + y) % q
  {
    DivMod(x, q);
    DivMod(y, q);
    ModShift(x % q + y % q, x / q + y / q, q);
  }

  lemma ResidueMulMul(m: int, n: int, a: Residue)
    ensures ResidueMul(m, ResidueMul(n, a)) == ResidueMul(m * n, a)
  {
    ModInner(m, n * a, ORDER);
    assert m * (n * a) == (m * n) * a;
  }

  lemma ResidueMulPlus(m: int, n: int, a: Residue)
    ensures ResidueAdd(ResidueMul(m, a), ResidueMul(n, a)) == ResidueMul(m + n, a)
  {
    ModSum(m * a, n * a, ORDER);
  }

  lemma ResidueMulAdd(m: int, a: Residue, b: Residue)
    ensures ResidueMul(m, ResidueAdd(a, b)) == ResidueAdd(ResidueMul(m, a), ResidueMul(m, b))
  {
    ModInner(m, a + b, ORDER);
    ModSum(m * a, m * b, ORDER);
    assert m * (a + b) == m * a + m * b;
  }

  lemma ResidueAddAssoc(a: Residue, b: Residue, d: Residue)
    ensures ResidueAdd(ResidueAdd(a, b), d) == ResidueAdd(a, ResidueAdd(b, d))
  {
    hide ResidueAdd;
    ResidueAddIs(a, b);
    ResidueAddIs(b, d);
    ResidueAddIs(ResidueAdd(a, b), d);
    ResidueAddIs(a, ResidueAdd(b, d));
  }

  lemma ResidueAddIs(a: Residue, b: Residue)
    ensures ResidueAdd(a, b) == if a + b < ORDER then a + b else a + b - ORDER
  {
  }

  lemma ResidueUnits(a: Residue)
    ensures Units(Residues(), a) && ResidueMul(ORDER, a) == 0
  {
    ModOfShift(a, 0, ORDER);
    ModShift(0, a, ORDER);
  }

  /** One group that meets every law and has prime order. */
  lemma ResiduesLawful()
    ensures Lawful(Residues()) && IsPrime(Residues().q)
  {
    hide ResidueAdd, ResidueMul, Commutes, Units;
    var c := Residues();
    forall a, b ensures Commutes(c, a, b) {
      ResidueAddComm(a, b);
    }
    forall a, b, d ensures Associates(c, a, b, d) {
      ResidueAddAssoc(a, b, d);
    }
    forall a ensures Units(c, a) && Annihilates(c, a) {
      ResidueUnits(a);
    }
    forall m, n, a ensures Composes(c, m, n, a) {
      ResidueMulMul(m, n, a);
    }
    forall m, n, a ensures AddsScalars(c, m, n, a) {
      ResidueMulPlus(m, n, a);
    }
    forall m, a, b ensures AddsPoints(c, m, a, b) {
      ResidueMulAdd(m, a, b);
    }
  }

  lemma ResidueAddComm(a: Residue, b: Residue)
    ensures Commutes(Residues(), a, b)
  {
  }
}
