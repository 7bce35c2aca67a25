/**
 The bit-decomposition range proof: Pedersen bit commitments, one disjunctive Schnorr proof per
 bit, and the homomorphic tie to the aggregate commitment. The Fiat-Shamir hash is any function
 of the three points it absorbs, and the prover's randomness is a parameter.
 */
module RangeProof {
  import opened Numerals
  import opened Wrappers
  import opened Curve

  /** The 512-bit hash of (C, a0, a1); SetUniformBytes reduces it modulo the group order. */
  type Hash<!P> = (P, P, P) -> nat

  /** a0 || a1 || e0 || s0 || s1, each a 32-byte string read as a number. */
  datatype OrProof = OrProof(a0: Wire, a1: Wire, e0: nat, s0: nat, s1: nat)

  datatype RangeProof = RangeProof(n: int, c: Wire, bits: seq<Wire>, ors: seq<OrProof>)

  /** The three scalars commitBitAndProve draws. */
  datatype Nonces = Nonces(kTrue: nat, sFake: nat, eFake: nat)

  datatype Error =
    | BadBitCount
    | ValueOutOfRange
    | LengthMismatch
    | BitRejected(index: nat)
    | BadCommitment
    | SumMismatch

  const MAX_BITS := 64

  // ---- one bit ----

  function Challenge<P>(c: Curve<P>, hash: Hash<P>, commitment: P, a0: P, a1: P): nat
    requires c.q > 0
  {
    hash(commitment, a0, a1) % c.q
  }

  function CommitBitAndProve<P>(c: Curve<P>, hash: Hash<P>, b: nat, r: nat, k: Nonces): (Wire, OrProof)
    requires c.q > 0
  {
    var C := c.add(c.mul(b, c.g), c.mul(r, c.h));
    var a0 := if b == 0 then c.mul(k.kTrue, c.h)
              else Sub(c, c.mul(k.sFake, c.h), c.mul(k.eFake, C));
    var a1 := if b == 0 then Sub(c, c.mul(k.sFake, c.h), c.mul(k.eFake, Sub(c, C, c.g)))
              else c.mul(k.kTrue, c.h);
    var e := Challenge(c, hash, C, a0, a1);
    var eTrue := ScSub(c.q, e, k.eFake);
    var sTrue := ScAdd(c.q, k.kTrue, ScMul(c.q, eTrue, r));
    (c.encode(C),
     if b == 0 then OrProof(c.encode(a0), c.encode(a1), eTrue, sTrue, k.sFake)
     else OrProof(c.encode(a0), c.encode(a1), k.eFake, k.sFake, sTrue))
  }

  /** The two Schnorr equations under challenge e. */
  predicate BranchesHold<P(==)>(c: Curve<P>, C: P, a0: P, a1: P, e: int, e0: int, s0: int, s1: int)
    requires c.q > 0
  {
    && c.mul(s0, c.h) == c.add(a0, c.mul(e0, C))
    && c.mul(s1, c.h) == c.add(a1, c.mul(ScSub(c.q, e, e0), Sub(c, C, c.g)))
  }

  /** verifyBitOR returns nil: everything decodes, the scalars are canonical, both branches hold. */
  predicate VerifyBitOR<P(==)>(c: Curve<P>, hash: Hash<P>, Ci: Wire, o: OrProof)
    requires c.q > 0
  {
    && c.decode(Ci).Some? && c.decode(o.a0).Some? && c.decode(o.a1).Some?
    && o.e0 < c.q && o.s0 < c.q && o.s1 < c.q
    && var C, a0, a1 := c.decode(Ci).value, c.decode(o.a0).value, c.decode(o.a1).value;
       BranchesHold(c, C, a0, a1, Challenge(c, hash, C, a0, a1), o.e0, o.s0, o.s1)
  }

  // ---- the whole proof ----

  function WeightedSum<P>(c: Curve<P>, points: seq<P>): P {
    if points == [] then c.zero
    else c.add(WeightedSum(c, points[..|points| - 1]), c.mul(Pow2(|points| - 1), points[|points| - 1]))
  }

  function WeightedInts(xs: seq<int>): int {
    if xs == [] then 0 else WeightedInts(xs[..|xs| - 1]) + Pow2(|xs| - 1) * xs[|xs| - 1]
  }

  function DecodeAll<P>(c: Curve<P>, ws: seq<Wire>): (ps: seq<P>)
    requires forall i :: 0 <= i < |ws| ==> c.decode(ws[i]).Some?
    ensures |ps| == |ws| && forall i :: 0 <= i < |ws| ==> ps[i] == c.decode(ws[i]).value
  {
    if ws == [] then [] else DecodeAll(c, ws[..|ws| - 1]) + [c.decode(ws[|ws| - 1]).value]
  }

  function BitOf(x: nat, i: nat): nat {
    x / Pow2(i) % 2
  }

  /** The proof of x in [0, 2^n) under given randomness: its commitment is blinded by the weighted sum. */
  function ProofOf<P>(c: Curve<P>, hash: Hash<P>, x: nat, n: nat, rs: seq<nat>, ks: seq<Nonces>): RangeProof
    requires c.q > 0 && n <= |rs| && n <= |ks|
  {
    RangeProof(n, c.encode(Com(c, x, WeightedInts(rs[..n]))),
               seq(n, i requires 0 <= i < n => CommitBitAndProve(c, hash, BitOf(x, i), rs[i], ks[i]).0),
               seq(n, i requires 0 <= i < n => CommitBitAndProve(c, hash, BitOf(x, i), rs[i], ks[i]).1))
  }

  /** What the verifier accepts: every bit proof, and the bits' weighted sum is the commitment. */
  predicate Accepts<P(==)>(c: Curve<P>, hash: Hash<P>, rp: RangeProof)
    requires c.q > 0
  {
    && 1 <= rp.n <= MAX_BITS
    && |rp.bits| == rp.n && |rp.ors| == rp.n
    && (forall i :: 0 <= i < rp.n ==> VerifyBitOR(c, hash, rp.bits[i], rp.ors[i]))
    && c.decode(rp.c) == Some(WeightedSum(c, DecodeAll(c, rp.bits)))
  }

  // ---- completeness ----

  /** The honest branch: k*H + e*(w*H) is (k + e*w)*H, also when the scalars are reduced. */
  lemma TrueBranch<P(!new)>(c: Curve<P>, k: nat, e: int, w: nat)
    requires Lawful(c) && c.q > 0
    ensures c.mul(ScAdd(c.q, k, ScMul(c.q, e, w)), c.h) == c.add(c.mul(k, c.h), c.mul(e, c.mul(w, c.h)))
  {
    hide Lawful, ScAdd, ScMul;
    MulScAdd(c, k, ScMul(c.q, e, w), c.h);
    MulScMul(c, e, w, c.h);
  }

  /** The faked branch: a = s*H - e*P makes s*H == a + e*P. */
  lemma FakeBranch<P(!new)>(c: Curve<P>, s: nat, e: nat, p: P)
    requires Lawful(c)
    ensures c.mul(s, c.h) == c.add(Sub(c, c.mul(s, c.h), c.mul(e, p)), c.mul(e, p))
  {
    hide Lawful;
    SubAdd(c, c.mul(s, c.h), c.mul(e, p));
  }

  /** A commitment to b has, in branch b, a statement point that is a multiple of H. */
  lemma TrueStatement<P(!new)>(c: Curve<P>, r: nat)
    requires Lawful(c)
    ensures Com(c, 0, r) == c.mul(r, c.h) && Sub(c, Com(c, 1, r), c.g) == c.mul(r, c.h)
  {
    hide Lawful, Com;
    ComBlind(c, r);
    ComGenerator(c);
    ComSub(c, 1, r, 1, 0);
  }

  lemma ZeroBranchHolds<P(!new)>(c: Curve<P>, r: nat, k: Nonces, e: nat)
    requires Lawful(c) && c.q > 0 && k.eFake < c.q
    ensures var C := Com(c, 0, r);
            var eTrue := ScSub(c.q, e, k.eFake);
            BranchesHold(c, C, c.mul(k.kTrue, c.h),
                         Sub(c, c.mul(k.sFake, c.h), c.mul(k.eFake, Sub(c, C, c.g))),
                         e, eTrue, ScAdd(c.q, k.kTrue, ScMul(c.q, eTrue, r)), k.sFake)
  {
    hide Lawful, Com, Sub, ScAdd, ScMul, ScSub;
    ScSubBack(c.q, e, k.eFake);
    TrueStatement(c, r);
    TrueBranch(c, k.kTrue, ScSub(c.q, e, k.eFake), r);
    FakeBranch(c, k.sFake, k.eFake, Sub(c, Com(c, 0, r), c.g));
  }

  lemma OneBranchHolds<P(!new)>(c: Curve<P>, r: nat, k: Nonces, e: nat)
    requires Lawful(c) && c.q > 0 && k.eFake < c.q
    ensures var C := Com(c, 1, r);
            var eTrue := ScSub(c.q, e, k.eFake);
            BranchesHold(c, C, Sub(c, c.mul(k.sFake, c.h), c.mul(k.eFake, C)), c.mul(k.kTrue, c.h),
                         e, k.eFake, k.sFake, ScAdd(c.q, k.kTrue, ScMul(c.q, eTrue, r)))
  {
    hide Lawful, Com, Sub, ScAdd, ScMul, ScSub;
    TrueStatement(c, r);
    TrueBranch(c, k.kTrue, ScSub(c.q, e, k.eFake), r);
    FakeBranch(c, k.sFake, k.eFake, Com(c, 1, r));
  }

  lemma ScalarsReduced(q: nat, k: nat, e: int, r: nat, f: nat)
    requires q > 0
    ensures ScSub(q, e, f) < q && ScAdd(q, k, ScMul(q, ScSub(q, e, f), r)) < q
  {
    hide ScMul;
  }

  /** Encoded points decode to themselves, so the equations are all a well-formed proof needs. */
  lemma EncodedProofPasses<P(!new)>(c: Curve<P>, hash: Hash<P>, C: P, a0: P, a1: P, e0: nat, s0: nat, s1: nat)
    requires Lawful(c) && c.q > 0 && e0 < c.q && s0 < c.q && s1 < c.q
    requires BranchesHold(c, C, a0, a1, Challenge(c, hash, C, a0, a1), e0, s0, s1)
    ensures VerifyBitOR(c, hash, c.encode(C), OrProof(c.encode(a0), c.encode(a1), e0, s0, s1))
  {
    hide Lawful, BranchesHold;
    Decodes(c, C);
    Decodes(c, a0);
    Decodes(c, a1);
  }

  /** The honest prover's bit proof passes, whatever the hash and the nonces. */
  lemma BitComplete<P(!new)>(c: Curve<P>, hash: Hash<P>, b: nat, r: nat, k: Nonces)
    requires Lawful(c) && c.q > 0 && b <= 1
    requires k.sFake < c.q && k.eFake < c.q
    ensures var (Ci, o) := CommitBitAndProve(c, hash, b, r, k);
            VerifyBitOR(c, hash, Ci, o) && c.decode(Ci) == Some(Com(c, b, r))
  {
    hide Lawful, BranchesHold, Sub, ScAdd, ScMul, ScSub, VerifyBitOR;
    var C, kH := Com(c, b, r), c.mul(k.kTrue, c.h);
    var sfH := c.mul(k.sFake, c.h);
    Decodes(c, C);
    if b == 0 {
      var fake := Sub(c, sfH, c.mul(k.eFake, Sub(c, C, c.g)));
      var e := Challenge(c, hash, C, kH, fake);
      var eTrue := ScSub(c.q, e, k.eFake);
      ZeroBranchHolds(c, r, k, e);
      ScalarsReduced(c.q, k.kTrue, e, r, k.eFake);
      EncodedProofPasses(c, hash, C, kH, fake, eTrue, ScAdd(c.q, k.kTrue, ScMul(c.q, eTrue, r)), k.sFake);
    } else {
      var fake := Sub(c, sfH, c.mul(k.eFake, C));
      var e := Challenge(c, hash, C, fake, kH);
      OneBranchHolds(c, r, k, e);
      ScalarsReduced(c.q, k.kTrue, e, r, k.eFake);
      EncodedProofPasses(c, hash, C, fake, kH, k.eFake, k.sFake,
                         ScAdd(c.q, k.kTrue, ScMul(c.q, ScSub(c.q, e, k.eFake), r)));
    }
  }

  lemma Regroup(a: nat, b: nat, p: nat, r: nat)
    ensures (2 * a + b) * p + r == a * (2 * p) + (p * b + r)
  {
  }

  lemma LowBits(x: nat, i: nat)
    ensures x % Pow2(i + 1) == x % Pow2(i) + Pow2(i) * BitOf(x, i)
  {
    var p := Pow2(i);
    var q, r := x / p, x % p;
    DivModSum(x, p);
    Regroup(q / 2, q % 2, p, r);
    assert p * (q % 2) + r < 2 * p;
    DivModUnique(q / 2, p * (q % 2) + r, 2 * p);
  }

  /** The bits of x, weighted, add up to x modulo 2^n. */
  lemma {:induction false} BitsAddUp(x: nat, n: nat, bits: seq<int>)
    requires |bits| == n && forall i :: 0 <= i < n ==> bits[i] == BitOf(x, i)
    ensures WeightedInts(bits) == x % Pow2(n)
  {
    if n > 0 {
      BitsAddUp(x, n - 1, bits[..n - 1]);
      LowBits(x, n - 1);
    }
  }

  lemma BelowPow2(x: nat, n: nat)
    requires x < Pow2(n)
    ensures x % Pow2(n) == x
  {
    DivModUnique(0, x, Pow2(n));
  }

  /** A weighted sum of commitments commits to the weighted sums. */
  lemma {:induction false} WeightedComs<P(!new)>(c: Curve<P>, points: seq<P>, xs: seq<int>, rs: seq<int>)
    requires Lawful(c) && |points| == |xs| == |rs|
    requires forall i :: 0 <= i < |points| ==> points[i] == Com(c, xs[i], rs[i])
    ensures WeightedSum(c, points) == Com(c, WeightedInts(xs), WeightedInts(rs))
  {
    hide Lawful, Com;
    var n := |points|;
    if n == 0 {
      ComZero(c);
    } else {
      WeightedComs(c, points[..n - 1], xs[..n - 1], rs[..n - 1]);
      ComMul(c, Pow2(n - 1), xs[n - 1], rs[n - 1]);
      ComAdd(c, WeightedInts(xs[..n - 1]), WeightedInts(rs[..n - 1]),
             Pow2(n - 1) * xs[n - 1], Pow2(n - 1) * rs[n - 1]);
    }
  }

  // ---- the source's algorithms ----

  /** The aggregate blinding: the reduced sum commits to the same point as the exact one. */
  method AggregateBlinding<P(!new)>(c: Curve<P>, n: nat, rs: seq<nat>, ghost x: int) returns (rAgg: nat)
    requires Lawful(c) && c.q > 0 && n <= |rs|
    ensures Com(c, x, rAgg) == Com(c, x, WeightedInts(rs[..n]))
  {
    hide *;
    rAgg := 0;
    WeightedNil(rs);
    for i := 0 to n
      invariant Com(c, x, rAgg) == Com(c, x, WeightedInts(rs[..i]))
    {
      WeightedSnoc(rs, i);
      ScalarSum(c, x, rAgg, WeightedInts(rs[..i]), Pow2(i), rs[i]);
      rAgg := ScAdd(c.q, rAgg, ScMul(c.q, Pow2(i), rs[i]));
    }
  }

  lemma WeightedNil(rs: seq<int>)
    ensures WeightedInts(rs[..0]) == 0
  {
  }

  lemma WeightedSnoc(rs: seq<int>, i: nat)
    requires i < |rs|
    ensures WeightedInts(rs[..i + 1]) == WeightedInts(rs[..i]) + Pow2(i) * rs[i]
  {
    assert rs[..i + 1][..i] == rs[..i];
  }

  /** One commitment and OR-proof per bit of x. */
  method ProveBits<P(!new)>(c: Curve<P>, hash: Hash<P>, x: nat, n: nat, rs: seq<nat>, ks: seq<Nonces>)
    returns (bits: seq<Wire>, ors: seq<OrProof>)
    requires Lawful(c) && c.q > 0 && n <= |rs| && n <= |ks|
    requires forall i :: 0 <= i < |ks| ==> ks[i].sFake < c.q && ks[i].eFake < c.q
    ensures |bits| == |ors| == n
    ensures forall k :: 0 <= k < n ==> (bits[k], ors[k]) == CommitBitAndProve(c, hash, BitOf(x, k), rs[k], ks[k])
    ensures forall k :: 0 <= k < n ==> VerifyBitOR(c, hash, bits[k], ors[k])
                                       && c.decode(bits[k]) == Some(Com(c, BitOf(x, k), rs[k]))
  {
    hide *;
    bits, ors := [], [];
    for i := 0 to n
      invariant |bits| == |ors| == i
      invariant forall k :: 0 <= k < i ==> (bits[k], ors[k]) == CommitBitAndProve(c, hash, BitOf(x, k), rs[k], ks[k])
      invariant forall k :: 0 <= k < i ==> VerifyBitOR(c, hash, bits[k], ors[k])
                                           && c.decode(bits[k]) == Some(Com(c, BitOf(x, k), rs[k]))
    {
      BitIsBit(x, i);
      var (Ci, o) := CommitBitAndProve(c, hash, BitOf(x, i), rs[i], ks[i]);
      BitComplete(c, hash, BitOf(x, i), rs[i], ks[i]);
      bits, ors := bits + [Ci], ors + [o];
    }
  }

  lemma BitIsBit(x: nat, i: nat)
    ensures BitOf(x, i) <= 1
  {
  }

  /**
   Completeness: for every bit count from 1 to 64, every 64-bit value that fits, every choice of
   randomness and every hash, the proof exists, is accepted, and commits to x under the weighted
   sum of the bit blindings.
   */
  method ProveRange<P(!new)>(c: Curve<P>, hash: Hash<P>, x: nat, n: int, rs: seq<nat>, ks: seq<Nonces>)
    returns (r: Result<RangeProof, Error>)
    requires Lawful(c) && c.q > 0
    requires x < Pow2(64) && |rs| >= n && |ks| >= n
    requires forall i :: 0 <= i < |ks| ==> ks[i].sFake < c.q && ks[i].eFake < c.q
    ensures r == Err(BadBitCount) <==> !(1 <= n <= 64)
    ensures r.Ok? <==> 1 <= n <= 64 && x < Pow2(n)
    ensures r.Ok? ==>
              && r.value == ProofOf(c, hash, x, n, rs, ks)
              && Accepts(c, hash, r.value)
              && c.decode(r.value.c) == Some(Com(c, x, WeightedInts(rs[..n])))
  {
    hide Lawful, VerifyBitOR, CommitBitAndProve, Com, WeightedSum, WeightedInts, BitOf, Pow2, DecodeAll;
    if n <= 0 || n > MAX_BITS {
      return Err(BadBitCount);
    }
    if n < 64 && x >= Pow2(n) {
      return Err(ValueOutOfRange);
    }
    var rAgg := AggregateBlinding(c, n, rs, x);
    var C := Com(c, x, rAgg);
    var bits, ors := ProveBits(c, hash, x, n, rs, ks);
    HonestSum(c, x, n, bits, rs[..n]);
    Decodes(c, C);
    r := Ok(RangeProof(n, c.encode(C), bits, ors));
  }

  lemma ScalarSum<P(!new)>(c: Curve<P>, x: int, a: int, a': int, w: int, t: int)
    requires Lawful(c) && c.q > 0
    requires Com(c, x, a) == Com(c, x, a')
    ensures Com(c, x, ScAdd(c.q, a, ScMul(c.q, w, t))) == Com(c, x, a' + w * t)
  {
    hide Lawful, Com;
    var u, v := ScMul(c.q, w, t), w * t;
    ComMod(c, x, a + u);
    ComAdd(c, x, a, 0, u);
    ComAdd(c, x, a', 0, v);
    ComMod(c, 0, v);
  }

  /** Honest bit commitments, weighted, give the commitment to x. */
  lemma HonestSum<P(!new)>(c: Curve<P>, x: nat, n: nat, bits: seq<Wire>, rs: seq<nat>)
    requires Lawful(c) && |bits| == |rs| == n && x < Pow2(n)
    requires forall k :: 0 <= k < n ==> c.decode(bits[k]) == Some(Com(c, BitOf(x, k), rs[k]))
    ensures WeightedSum(c, DecodeAll(c, bits)) == Com(c, x, WeightedInts(rs))
  {
    hide Lawful, Com;
    var xs: seq<int> := seq(n, k requires 0 <= k < n => BitOf(x, k));
    WeightedComs(c, DecodeAll(c, bits), xs, rs);
    BitsAddUp(x, n, xs);
    BelowPow2(x, n);
  }

  /** sum(2^i * C_i); the bit proofs have already shown that every commitment decodes. */
  method SumCommitments<P>(c: Curve<P>, bits: seq<Wire>) returns (acc: P)
    requires forall i :: 0 <= i < |bits| ==> c.decode(bits[i]).Some?
    ensures acc == WeightedSum(c, DecodeAll(c, bits))
  {
    acc := c.zero;
    for i := 0 to |bits|
      invariant acc == WeightedSum(c, DecodeAll(c, bits[..i]))
    {
      var Ci := c.decode(bits[i]).value;
      assert bits[..i + 1][..i] == bits[..i];
      assert DecodeAll(c, bits[..i + 1])[..i] == DecodeAll(c, bits[..i]);
      acc := c.add(acc, c.mul(Pow2(i), Ci));
    }
    assert bits[..|bits|] == bits;
  }

  method VerifyRange<P(==, !new)>(c: Curve<P>, hash: Hash<P>, rp: RangeProof) returns (r: Result<(), Error>)
    requires c.q > 0
    ensures r.Ok? <==> Accepts(c, hash, rp)
    ensures r == Err(BadBitCount) <==> !(1 <= rp.n <= 64)
    ensures r == Err(LengthMismatch) <==> 1 <= rp.n <= 64 && !(|rp.bits| == |rp.ors| == rp.n)
    ensures r.Err? && r.error.BitRejected? ==>
              && r.error.index < |rp.bits| == |rp.ors|
              && !VerifyBitOR(c, hash, rp.bits[r.error.index], rp.ors[r.error.index])
    ensures r == Err(SumMismatch) ==>
              forall i :: 0 <= i < rp.n ==> i < |rp.bits| == |rp.ors| && VerifyBitOR(c, hash, rp.bits[i], rp.ors[i])
  {
    hide VerifyBitOR, WeightedSum, DecodeAll;
    if rp.n <= 0 || rp.n > MAX_BITS {
      return Err(BadBitCount);
    }
    if |rp.bits| != rp.n || |rp.ors| != rp.n {
      return Err(LengthMismatch);
    }
    for i := 0 to rp.n
      invariant forall k :: 0 <= k < i ==> VerifyBitOR(c, hash, rp.bits[k], rp.ors[k])
    {
      if !VerifyBitOR(c, hash, rp.bits[i], rp.ors[i]) {
        return Err(BitRejected(i));
      }
    }
    AllDecode(c, hash, rp);
    var acc := SumCommitments(c, rp.bits);
    var C := c.decode(rp.c);
    if C.None? {
      return Err(BadCommitment);
    }
    if acc != C.value {
      return Err(SumMismatch);
    }
    r := Ok(());
  }

  lemma AllDecode<P>(c: Curve<P>, hash: Hash<P>, rp: RangeProof)
    requires c.q > 0 && 0 <= rp.n == |rp.bits| == |rp.ors|
    requires forall i :: 0 <= i < rp.n ==> VerifyBitOR(c, hash, rp.bits[i], rp.ors[i])
    ensures forall i :: 0 <= i < rp.n ==> c.decode(rp.bits[i]).Some?
  {
    forall i | 0 <= i < rp.n ensures c.decode(rp.bits[i]).Some? {
      assert VerifyBitOR(c, hash, rp.bits[i], rp.ors[i]);
    }
  }

  // ---- what the challenge binds ----

  /** Two hashes that give the same challenge on the three points of a transcript. */
  predicate SameChallenge<P>(c: Curve<P>, hash: Hash<P>, hash': Hash<P>, Ci: Wire, o: OrProof)
    requires c.q > 0
  {
    c.decode(Ci).Some? && c.decode(o.a0).Some? && c.decode(o.a1).Some? ==>
      var C, a0, a1 := c.decode(Ci).value, c.decode(o.a0).value, c.decode(o.a1).value;
      hash(C, a0, a1) % c.q == hash'(C, a0, a1) % c.q
  }

  /** Acceptance depends on the hash at the commitment and both first messages, and nowhere else. */
  lemma OnlyTheTripleCounts<P>(c: Curve<P>, hash: Hash<P>, hash': Hash<P>, Ci: Wire, o: OrProof)
    requires c.q > 0 && SameChallenge(c, hash, hash', Ci, o)
    ensures VerifyBitOR(c, hash, Ci, o) <==> VerifyBitOR(c, hash', Ci, o)
  {
    hide BranchesHold;
  }

  /**
   Fiat-Shamir binding: over a group of prime order, an accepted bit proof is accepted under another
   hash exactly when that hash gives the same challenge on the commitment and both first messages (or
   the commitment is G itself, where the second branch proves nothing).
   */
  lemma ChallengeBinds<P(!new)>(c: Curve<P>, hash: Hash<P>, hash': Hash<P>, Ci: Wire, o: OrProof)
    requires Lawful(c) && IsPrime(c.q) && VerifyBitOR(c, hash, Ci, o)
    ensures VerifyBitOR(c, hash', Ci, o) <==> SameChallenge(c, hash, hash', Ci, o) || c.decode(Ci) == Some(c.g)
  {
    hide Lawful, IsPrime, Sub, ScSub, BranchesHold;
    var C, a0, a1 := c.decode(Ci).value, c.decode(o.a0).value, c.decode(o.a1).value;
    var e, e' := Challenge(c, hash, C, a0, a1), Challenge(c, hash', C, a0, a1);
    if e == e' {
      OnlyTheTripleCounts(c, hash, hash', Ci, o);
    } else if C == c.g {
      GeneratorBranch(c, a0, a1, e, e', o.e0, o.s0, o.s1);
    } else if VerifyBitOR(c, hash', Ci, o) {
      TwoChallenges(c, C, a0, a1, e, e', o.e0, o.s0, o.s1);
    }
  }

  lemma SubZero<P(!new)>(c: Curve<P>, a: P, k: int)
    requires Lawful(c)
    ensures Sub(c, a, a) == c.zero && c.mul(k, c.zero) == c.zero
  {
    hide Lawful;
    MulUnits(c, a);
    MulPlus(c, 1, -1, a);
    MulMul(c, k, 0, a);
  }

  lemma GeneratorBranch<P(!new)>(c: Curve<P>, a0: P, a1: P, e: int, e': int, e0: int, s0: int, s1: int)
    requires Lawful(c) && c.q > 0 && BranchesHold(c, c.g, a0, a1, e, e0, s0, s1)
    ensures BranchesHold(c, c.g, a0, a1, e', e0, s0, s1)
  {
    hide Lawful, Sub, ScSub;
    SubZero(c, c.g, ScSub(c.q, e, e0));
    SubZero(c, c.g, ScSub(c.q, e', e0));
  }

  /** The same answer to two challenges: the second statement point is the identity. */
  lemma TwoChallenges<P(!new)>(c: Curve<P>, C: P, a0: P, a1: P, e: nat, e': nat, e0: nat, s0: nat, s1: nat)
    requires Lawful(c) && IsPrime(c.q) && e < c.q && e' < c.q && e0 < c.q && e != e'
    requires BranchesHold(c, C, a0, a1, e, e0, s0, s1) && BranchesHold(c, C, a0, a1, e', e0, s0, s1)
    ensures C == c.g
  {
    hide Lawful, IsPrime, Inverse, Sub, ScSub;
    var p := Sub(c, C, c.g);
    var f, f' := ScSub(c.q, e, e0), ScSub(c.q, e', e0);
    SecondShareDiffers(c.q, e, e', e0);
    SchnorrExtract(c, a1, p, f, f', s1, s1);
    assert Quotient(c.q, f, f', s1, s1) == 0;
    MulUnits(c, c.h);
    SubAdd(c, C, c.g);
    AddZero(c, c.g);
  }

  /** The same for the whole proof: only the challenges of its own bits count. */
  lemma ProofBindsHash<P>(c: Curve<P>, hash: Hash<P>, hash': Hash<P>, rp: RangeProof)
    requires c.q > 0 && |rp.bits| == |rp.ors|
    requires forall i :: 0 <= i < |rp.bits| ==> SameChallenge(c, hash, hash', rp.bits[i], rp.ors[i])
    ensures Accepts(c, hash, rp) <==> Accepts(c, hash', rp)
  {
    hide VerifyBitOR, WeightedSum, DecodeAll, SameChallenge;
    forall i | 0 <= i < |rp.bits|
      ensures VerifyBitOR(c, hash, rp.bits[i], rp.ors[i]) <==> VerifyBitOR(c, hash', rp.bits[i], rp.ors[i])
    {
      OnlyTheTripleCounts(c, hash, hash', rp.bits[i], rp.ors[i]);
    }
  }

  /**
   The prover too asks the hash for exactly that triple: with the same nonces it emits the same proof
   under two hashes only if (up to the commitment being G) they agree there, and always if they do.
   */
  lemma ProverBindsHash<P(!new)>(c: Curve<P>, hash: Hash<P>, hash': Hash<P>, b: nat, r: nat, k: Nonces)
    requires Lawful(c) && IsPrime(c.q) && b <= 1 && k.sFake < c.q && k.eFake < c.q
    ensures c.q > 0
    ensures var (Ci, o) := CommitBitAndProve(c, hash, b, r, k);
            && (SameChallenge(c, hash, hash', Ci, o) ==> CommitBitAndProve(c, hash', b, r, k) == (Ci, o))
            && (CommitBitAndProve(c, hash', b, r, k) == (Ci, o) ==>
                  SameChallenge(c, hash, hash', Ci, o) || Com(c, b, r) == c.g)
  {
    hide Lawful, IsPrime, VerifyBitOR, CommitBitAndProve, SameChallenge, Com;
    OrderPositive(c);
    var (Ci, o) := CommitBitAndProve(c, hash, b, r, k);
    if SameChallenge(c, hash, hash', Ci, o) { SameEmission(c, hash, hash', b, r, k); }
    if CommitBitAndProve(c, hash', b, r, k) == (Ci, o) {
      BitComplete(c, hash, b, r, k);
      BitComplete(c, hash', b, r, k);
      ChallengeBinds(c, hash, hash', Ci, o);
    }
  }

  lemma SameEmission<P(!new)>(c: Curve<P>, hash: Hash<P>, hash': Hash<P>, b: nat, r: nat, k: Nonces)
    requires Lawful(c) && c.q > 0
    requires var (Ci, o) := CommitBitAndProve(c, hash, b, r, k); SameChallenge(c, hash, hash', Ci, o)
    ensures CommitBitAndProve(c, hash', b, r, k) == CommitBitAndProve(c, hash, b, r, k)
  {
    hide Lawful, Sub, ScAdd, ScMul, ScSub;
    var C := Com(c, b, r);
    Decodes(c, C);
    Decodes(c, c.mul(k.kTrue, c.h));
    Decodes(c, Sub(c, c.mul(k.sFake, c.h), c.mul(k.eFake, C)));
    Decodes(c, Sub(c, c.mul(k.sFake, c.h), c.mul(k.eFake, Sub(c, C, c.g))));
  }

  // ---- soundness ----

  /** The answer of the same prover for one bit, rewound and asked under another hash. */
  datatype Rerun<!P> = Rerun(hash: Hash<P>, proof: OrProof)

  /**
   An accepted proof and, for each bit, an accepted bit proof on the same commitment with the same first
   message (a0, a1) that met a different challenge. Every bit may be rewound under a hash of its own.
   */
  ghost predicate Forked<P>(c: Curve<P>, hash: Hash<P>, rp: RangeProof, reruns: seq<Rerun<P>>)
    requires c.q > 0
  {
    && Accepts(c, hash, rp) && |reruns| == rp.n
    && (forall i :: 0 <= i < rp.n ==> VerifyBitOR(c, reruns[i].hash, rp.bits[i], reruns[i].proof))
    && forall i :: 0 <= i < rp.n ==> ForkedAt(c, hash, reruns[i].hash, rp.bits[i], rp.ors[i], reruns[i].proof)
  }

  ghost predicate ForkedAt<P>(c: Curve<P>, hash: Hash<P>, hash': Hash<P>, Ci: Wire, o: OrProof, o': OrProof)
    requires c.q > 0
  {
    && o.a0 == o'.a0 && o.a1 == o'.a1
    && (c.decode(Ci).Some? && c.decode(o.a0).Some? && c.decode(o.a1).Some? ==>
          ChallengeOf(c, hash, Ci, o) != ChallengeOf(c, hash', Ci, o))
  }

  function ChallengeOf<P>(c: Curve<P>, hash: Hash<P>, Ci: Wire, o: OrProof): nat
    requires c.q > 0 && c.decode(Ci).Some? && c.decode(o.a0).Some? && c.decode(o.a1).Some?
  {
    Challenge(c, hash, c.decode(Ci).value, c.decode(o.a0).value, c.decode(o.a1).value)
  }

  /** The discrete logarithm that two answers to different challenges reveal; it sees scalars only. */
  ghost function Quotient(q: nat, e: nat, e': nat, s: nat, s': nat): int
    requires IsPrime(q) && e < q && e' < q && e != e'
  {
    Differ(q, e, e');
    Inverse(ScSub(q, e, e'), q) * (s - s')
  }

  lemma Differ(q: nat, e: int, e': int)
    requires q > 0 && e - e' < q && e' - e < q && e != e'
    ensures 0 < ScSub(q, e, e') < q
  {
    if e > e' {
      ModOfShift(e - e', 0, q);
    } else {
      ModOfShift(e - e' + q, -1, q);
    }
  }

  lemma CrossCancel<P(!new)>(c: Curve<P>, e: int, e': int, p: P, s: int, s': int, h: P)
    requires Lawful(c)
    requires c.add(c.mul(e, p), c.mul(s', h)) == c.add(c.mul(s, h), c.mul(e', p))
    ensures c.mul(e - e', p) == c.mul(s - s', h)
  {
    hide Lawful;
    var np, nh := c.mul(-e', p), c.mul(-s', h);
    AddSwap(c, c.mul(e, p), c.mul(s', h), np, nh);
    AddSwap(c, c.mul(s, h), c.mul(e', p), nh, np);
    AddComm(c, np, nh);
    MulPlus(c, e, -e', p);
    MulPlus(c, e', -e', p);
    MulPlus(c, s, -s', h);
    MulPlus(c, s', -s', h);
    MulUnits(c, p);
    MulUnits(c, h);
    AddZero(c, c.mul(e - e', p));
    AddZero(c, c.mul(s - s', h));
  }

  /** Two accepting answers with the same first message give the statement point as a multiple of H. */
  lemma SchnorrExtract<P(!new)>(c: Curve<P>, a: P, p: P, e: nat, e': nat, s: nat, s': nat)
    requires Lawful(c) && IsPrime(c.q) && e < c.q && e' < c.q && e != e'
    requires c.mul(s, c.h) == c.add(a, c.mul(e, p)) && c.mul(s', c.h) == c.add(a, c.mul(e', p))
    ensures p == c.mul(Quotient(c.q, e, e', s, s'), c.h)
  {
    hide Lawful, IsPrime, Inverse;
    var eP, eP' := c.mul(e, p), c.mul(e', p);
    AddAssoc(c, eP, a, eP');
    AddComm(c, eP, a);
    CrossCancel(c, e, e', p, s, s', c.h);
    Differ(c.q, e, e');
    var d := ScSub(c.q, e, e');
    MulMod(c, e - e', p);
    InverseCancels(c, d, p);
    MulMul(c, Inverse(d, c.q), s - s', c.h);
  }

  /** The bit and the blinding that a fork reveals. */
  ghost function ExtractBit(q: nat, e: nat, e': nat, o: OrProof, o': OrProof): (nat, int)
    requires IsPrime(q) && e < q && e' < q && e != e' && o.e0 < q && o'.e0 < q
  {
    if o.e0 != o'.e0 then (0, Quotient(q, o.e0, o'.e0, o.s0, o'.s0))
    else
      SecondShareDiffers(q, e, e', o.e0);
      (1, Quotient(q, ScSub(q, e, o.e0), ScSub(q, e', o.e0), o.s1, o'.s1))
  }

  lemma SecondShareDiffers(q: nat, e: nat, e': nat, f: nat)
    requires e < q && e' < q && f < q && e != e'
    ensures ScSub(q, e, f) != ScSub(q, e', f) && ScSub(q, e, f) < q && ScSub(q, e', f) < q
  {
    DivMod(e - f, q);
    DivMod(e' - f, q);
    if ScSub(q, e, f) == ScSub(q, e', f) {
      var k := (e - f) / q - (e' - f) / q;
      assert k * q == e - e';
      MultipleIsLarge(k, q);
    }
  }

  /** Special soundness of one bit: the fork opens the bit commitment to 0 or 1. */
  lemma BitSound<P(!new)>(c: Curve<P>, hash: Hash<P>, hash': Hash<P>, Ci: Wire, o: OrProof, o': OrProof)
    requires Lawful(c) && IsPrime(c.q)
    requires VerifyBitOR(c, hash, Ci, o) && VerifyBitOR(c, hash', Ci, o')
    requires ForkedAt(c, hash, hash', Ci, o, o')
    ensures var (b, w) := ExtractBit(c.q, ChallengeOf(c, hash, Ci, o), ChallengeOf(c, hash', Ci, o), o, o');
            b <= 1 && c.decode(Ci).value == Com(c, b, w)
  {
    hide Lawful, IsPrime, Quotient, ScSub;
    var C, a0, a1 := c.decode(Ci).value, c.decode(o.a0).value, c.decode(o.a1).value;
    var e, e' := ChallengeOf(c, hash, Ci, o), ChallengeOf(c, hash', Ci, o);
    if o.e0 != o'.e0 {
      SchnorrExtract(c, a0, C, o.e0, o'.e0, o.s0, o'.s0);
      ComBlind(c, Quotient(c.q, o.e0, o'.e0, o.s0, o'.s0));
    } else {
      SecondShareDiffers(c.q, e, e', o.e0);
      var p := Sub(c, C, c.g);
      SchnorrExtract(c, a1, p, ScSub(c.q, e, o.e0), ScSub(c.q, e', o.e0), o.s1, o'.s1);
      var w := Quotient(c.q, ScSub(c.q, e, o.e0), ScSub(c.q, e', o.e0), o.s1, o'.s1);
      SubAdd(c, C, c.g);
      ComGenerator(c);
      ComBlind(c, w);
      ComAdd(c, 0, w, 1, 0);
    }
  }

  lemma {:induction false} WeightedBitsInRange(xs: seq<int>)
    requires forall i :: 0 <= i < |xs| ==> 0 <= xs[i] <= 1
    ensures 0 <= WeightedInts(xs) < Pow2(|xs|)
  {
    if xs != [] {
      WeightedBitsInRange(xs[..|xs| - 1]);
    }
  }

  /** What a fork reveals bit by bit. */
  ghost function Openings<P>(c: Curve<P>, hash: Hash<P>, rp: RangeProof, reruns: seq<Rerun<P>>)
      : (os: seq<(nat, int)>)
    requires c.q > 0 && IsPrime(c.q) && Forked(c, hash, rp, reruns)
    ensures |os| == rp.n
  {
    seq(rp.n, i requires 0 <= i < rp.n =>
      assert VerifyBitOR(c, hash, rp.bits[i], rp.ors[i]) && VerifyBitOR(c, reruns[i].hash, rp.bits[i], reruns[i].proof);
      assert ForkedAt(c, hash, reruns[i].hash, rp.bits[i], rp.ors[i], reruns[i].proof);
      ExtractBit(c.q, ChallengeOf(c, hash, rp.bits[i], rp.ors[i]),
                 ChallengeOf(c, reruns[i].hash, rp.bits[i], rp.ors[i]), rp.ors[i], reruns[i].proof))
  }

  function Firsts(os: seq<(nat, int)>): (xs: seq<int>)
    ensures |xs| == |os| && forall i :: 0 <= i < |os| ==> xs[i] == os[i].0
  {
    seq(|os|, i requires 0 <= i < |os| => os[i].0)
  }

  function Seconds(os: seq<(nat, int)>): (ws: seq<int>)
    ensures |ws| == |os| && forall i :: 0 <= i < |os| ==> ws[i] == os[i].1
  {
    seq(|os|, i requires 0 <= i < |os| => os[i].1)
  }

  /** The committed value and blinding read off a fork. */
  ghost function Extract<P>(c: Curve<P>, hash: Hash<P>, rp: RangeProof, reruns: seq<Rerun<P>>): (int, int)
    requires c.q > 0 && IsPrime(c.q) && Forked(c, hash, rp, reruns)
  {
    var os := Openings(c, hash, rp, reruns);
    (WeightedInts(Firsts(os)), WeightedInts(Seconds(os)))
  }

  /** Soundness: a fork of an accepted proof opens its commitment to a value in [0, 2^n). */
  lemma RangeSound<P(!new)>(c: Curve<P>, hash: Hash<P>, rp: RangeProof, reruns: seq<Rerun<P>>)
    requires c.q > 0 && Lawful(c) && IsPrime(c.q) && Forked(c, hash, rp, reruns)
    ensures var (x, r) := Extract(c, hash, rp, reruns);
            0 <= x < Pow2(rp.n) && c.decode(rp.c) == Some(Com(c, x, r))
  {
    hide *;
    ForkDecodes(c, hash, rp, reruns);
    var os := Openings(c, hash, rp, reruns);
    var points := DecodeAll(c, rp.bits);
    ghost var xs, ws := Firsts(os), Seconds(os);
    forall i | 0 <= i < rp.n ensures 0 <= xs[i] <= 1 && points[i] == Com(c, xs[i], ws[i]) {
      OpeningAt(c, hash, rp, reruns, i);
    }
    WeightedBitsInRange(xs);
    WeightedComs(c, points, xs, ws);
    ExtractIs(c, hash, rp, reruns);
  }

  lemma ExtractIs<P>(c: Curve<P>, hash: Hash<P>, rp: RangeProof, reruns: seq<Rerun<P>>)
    requires c.q > 0 && IsPrime(c.q) && Forked(c, hash, rp, reruns)
    ensures var os := Openings(c, hash, rp, reruns);
            Extract(c, hash, rp, reruns) == (WeightedInts(Firsts(os)), WeightedInts(Seconds(os)))
  {
    hide Forked, IsPrime, WeightedInts, Openings;
  }

  lemma ForkDecodes<P>(c: Curve<P>, hash: Hash<P>, rp: RangeProof, reruns: seq<Rerun<P>>)
    requires c.q > 0 && Forked(c, hash, rp, reruns)
    ensures rp.n == |rp.bits| == |rp.ors| && 0 <= rp.n
    ensures forall i :: 0 <= i < rp.n ==> c.decode(rp.bits[i]).Some?
    ensures c.decode(rp.c) == Some(WeightedSum(c, DecodeAll(c, rp.bits)))
  {
    hide WeightedSum, DecodeAll, BranchesHold;
    AllDecode(c, hash, rp);
  }

  lemma OpeningAt<P(!new)>(c: Curve<P>, hash: Hash<P>, rp: RangeProof, reruns: seq<Rerun<P>>, i: nat)
    requires c.q > 0 && Lawful(c) && IsPrime(c.q) && Forked(c, hash, rp, reruns)
    requires i < rp.n == |rp.bits| && forall k :: 0 <= k < rp.n ==> c.decode(rp.bits[k]).Some?
    ensures var (b, w) := Openings(c, hash, rp, reruns)[i];
            b <= 1 && DecodeAll(c, rp.bits)[i] == Com(c, b, w)
  {
    hide *;
    ForkAt(c, hash, rp, reruns, i);
    BitSound(c, hash, reruns[i].hash, rp.bits[i], rp.ors[i], reruns[i].proof);
  }

  lemma ForkAt<P>(c: Curve<P>, hash: Hash<P>, rp: RangeProof, reruns: seq<Rerun<P>>, i: nat)
    requires c.q > 0 && IsPrime(c.q) && Forked(c, hash, rp, reruns) && i < rp.n
    ensures i < |rp.bits| && i < |rp.ors| && i < |reruns|
    ensures VerifyBitOR(c, hash, rp.bits[i], rp.ors[i]) && VerifyBitOR(c, reruns[i].hash, rp.bits[i], reruns[i].proof)
    ensures ForkedAt(c, hash, reruns[i].hash, rp.bits[i], rp.ors[i], reruns[i].proof)
    ensures rp.ors[i].e0 < c.q && reruns[i].proof.e0 < c.q
    ensures c.decode(rp.bits[i]).Some? && c.decode(rp.ors[i].a0).Some? && c.decode(rp.ors[i].a1).Some?
    ensures var e := ChallengeOf(c, hash, rp.bits[i], rp.ors[i]);
            var e' := ChallengeOf(c, reruns[i].hash, rp.bits[i], rp.ors[i]);
            && e < c.q && e' < c.q && e != e'
            && Openings(c, hash, rp, reruns)[i] == ExtractBit(c.q, e, e', rp.ors[i], reruns[i].proof)
  {
    hide IsPrime, WeightedSum, DecodeAll, BranchesHold, ExtractBit;
    assert VerifyBitOR(c, hash, rp.bits[i], rp.ors[i]) && VerifyBitOR(c, reruns[i].hash, rp.bits[i], reruns[i].proof);
    assert ForkedAt(c, hash, reruns[i].hash, rp.bits[i], rp.ors[i], reruns[i].proof);
  }

  /** Two openings of one point with different values reveal the discrete logarithm of G to base H. */
  lemma TwoOpeningsRevealLog<P(!new)>(c: Curve<P>, x: nat, r: int, y: nat, s: int)
    requires Lawful(c) && IsPrime(c.q) && x < c.q && y < c.q && x != y
    requires Com(c, x, r) == Com(c, y, s)
    ensures 0 < ScSub(c.q, x, y) < c.q
    ensures c.g == c.mul(Inverse(ScSub(c.q, x, y), c.q) * (s - r), c.h)
  {
    hide Lawful, IsPrime, Inverse;
    Differ(c.q, x, y);
    AddComm(c, c.mul(y, c.g), c.mul(s, c.h));
    CrossCancel(c, x, y, c.g, s, r, c.h);
    MulMod(c, x - y, c.g);
    InverseCancels(c, ScSub(c.q, x, y), c.g);
    MulMul(c, Inverse(ScSub(c.q, x, y), c.q), s - r, c.h);
  }

  /**
   What acceptance is worth: whoever can be forked and still knows an opening of the commitment to
   a value of 2^n or more knows the discrete logarithm of G to base H, by an explicit formula.
   */
  lemma OutOfRangeOpeningRevealsLog<P(!new)>(
      c: Curve<P>, hash: Hash<P>, rp: RangeProof, reruns: seq<Rerun<P>>, y: nat, s: int)
    requires c.q > 0 && Lawful(c) && IsPrime(c.q) && Forked(c, hash, rp, reruns)
    requires Pow2(rp.n) <= y < c.q && c.decode(rp.c) == Some(Com(c, y, s))
    ensures var (x, r) := Extract(c, hash, rp, reruns);
            && 0 < ScSub(c.q, x, y) < c.q
            && c.g == c.mul(Inverse(ScSub(c.q, x, y), c.q) * (s - r), c.h)
  {
    hide Lawful, IsPrime, Com, Extract, Forked;
    RangeSound(c, hash, rp, reruns);
    var (x, r) := Extract(c, hash, rp, reruns);
    TwoOpeningsRevealLog(c, x, r, y, s);
  }
}
