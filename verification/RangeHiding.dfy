/**
 What a bit proof hides. The prover's nonces and the transcripts the verifier accepts are in
 one-to-one correspondence, whichever bit the commitment is opened to; so a transcript made with
 one witness could have been made, in exactly one way, with the other.
 */
module RangeHiding {
  import opened Curve
  import opened Numerals
  import opened Wrappers
  import opened RangeProof

  /** The nonces commitBitAndProve draws, in their range. */
  predicate Drawn(q: nat, k: Nonces) {
    k.kTrue < q && k.sFake < q && k.eFake < q
  }

  /** The only nonces with which an honest prover for bit b under blinding r can emit a transcript. */
  function NoncesBehind(q: nat, b: nat, r: nat, e: nat, o: OrProof): Nonces
    requires q > 0
  {
    if b == 0 then Nonces(ScSub(q, o.s0, ScMul(q, o.e0, r)), o.s1, ScSub(q, e, o.e0))
    else Nonces(ScSub(q, o.s1, ScMul(q, ScSub(q, e, o.e0), r)), o.s0, o.e0)
  }

  lemma AddBack(q: nat, s: nat, t: nat)
    requires s < q
    ensures ScAdd(q, ScSub(q, s, t), t) == s
  {
    DivMod(s - t, q);
    var d := (s - t) / q;
    assert ScSub(q, s, t) + t == s + (-d) * q;
    ModOfShift(s, -d, q);
  }

  lemma SubBack(q: nat, k: nat, t: nat)
    requires k < q
    ensures ScSub(q, ScAdd(q, k, t), t) == k
  {
    DivMod(k + t, q);
    var d := (k + t) / q;
    assert ScAdd(q, k, t) - t == k + (-d) * q;
    ModOfShift(k, -d, q);
  }

  /** The honest first message is the one the verifier's equation forces: k*H == s*H - e*(r*H). */
  lemma TrueMessage<P(!new)>(c: Curve<P>, s: nat, e: int, r: nat, a: P)
    requires Lawful(c) && c.q > 0
    requires c.mul(s, c.h) == c.add(a, c.mul(e, c.mul(r, c.h)))
    ensures a == c.mul(ScSub(c.q, s, ScMul(c.q, e, r)), c.h)
  {
    hide Lawful, Sub, ScMul, ScSub, Com;
    var t := ScMul(c.q, e, r);
    AddCancel(c, a, c.mul(e, c.mul(r, c.h)));
    MulScMul(c, e, r, c.h);
    ComBlind(c, s);
    ComBlind(c, t);
    ComBlind(c, s - t);
    ComSub(c, 0, s, 0, t);
    SubMod(c, s - t);
  }

  lemma SubMod<P(!new)>(c: Curve<P>, d: int)
    requires Lawful(c) && c.q > 0
    ensures c.mul(ScSub(c.q, d, 0), c.h) == c.mul(d, c.h)
    ensures forall s: nat, t: nat :: s - t == d ==> ScSub(c.q, s, t) == ScSub(c.q, d, 0)
  {
    hide Lawful;
    MulMod(c, d, c.h);
  }

  /** Every accepted transcript on a commitment to a bit is one the honest prover for that bit emits. */
  lemma ProverEmits<P(!new)>(c: Curve<P>, hash: Hash<P>, b: nat, r: nat, a0: P, a1: P, o: OrProof, e: nat, k: Nonces)
    requires Lawful(c) && c.q > 0 && b <= 1 && o.a0 == c.encode(a0) && o.a1 == c.encode(a1)
    requires o.e0 < c.q && o.s0 < c.q && o.s1 < c.q
    requires e == Challenge(c, hash, Com(c, b, r), a0, a1)
    requires BranchesHold(c, Com(c, b, r), a0, a1, e, o.e0, o.s0, o.s1)
    requires k == NoncesBehind(c.q, b, r, e, o)
    ensures CommitBitAndProve(c, hash, b, r, k) == (c.encode(Com(c, b, r)), o)
  {
    hide Lawful, ScMul, ScSub, ScAdd, Challenge, Sub, Com, CommitBitAndProve;
    var C := Com(c, b, r);
    if b == 0 {
      ComBlind(c, r);
      TrueMessage(c, o.s0, o.e0, r, a0);
      AddCancel(c, a1, c.mul(k.eFake, Sub(c, C, c.g)));
      ScSubBack(c.q, e, o.e0);
      AddBack(c.q, o.s0, ScMul(c.q, o.e0, r));
      ProveZero(c, hash, r, k);
    } else {
      TrueStatement(c, r);
      TrueMessage(c, o.s1, ScSub(c.q, e, o.e0), r, a1);
      AddCancel(c, a0, c.mul(o.e0, C));
      AddBack(c.q, o.s1, ScMul(c.q, ScSub(c.q, e, o.e0), r));
      ProveOne(c, hash, r, k);
    }
  }

  lemma ProveZero<P>(c: Curve<P>, hash: Hash<P>, r: nat, k: Nonces)
    requires c.q > 0
    ensures var C := Com(c, 0, r);
            var a0, a1 := c.mul(k.kTrue, c.h), Sub(c, c.mul(k.sFake, c.h), c.mul(k.eFake, Sub(c, C, c.g)));
            var eTrue := ScSub(c.q, Challenge(c, hash, C, a0, a1), k.eFake);
            CommitBitAndProve(c, hash, 0, r, k)
            == (c.encode(C), OrProof(c.encode(a0), c.encode(a1), eTrue,
                                     ScAdd(c.q, k.kTrue, ScMul(c.q, eTrue, r)), k.sFake))
  {
    hide ScMul, ScSub, ScAdd, Challenge, Sub;
  }

  lemma ProveOne<P>(c: Curve<P>, hash: Hash<P>, r: nat, k: Nonces)
    requires c.q > 0
    ensures var C := Com(c, 1, r);
            var a0, a1 := Sub(c, c.mul(k.sFake, c.h), c.mul(k.eFake, C)), c.mul(k.kTrue, c.h);
            var eTrue := ScSub(c.q, Challenge(c, hash, C, a0, a1), k.eFake);
            CommitBitAndProve(c, hash, 1, r, k)
            == (c.encode(C), OrProof(c.encode(a0), c.encode(a1), k.eFake, k.sFake,
                                     ScAdd(c.q, k.kTrue, ScMul(c.q, eTrue, r))))
  {
    hide ScMul, ScSub, ScAdd, Challenge, Sub;
  }

  function PointsOf<P>(c: Curve<P>, o: OrProof): (P, P)
    requires c.decode(o.a0).Some? && c.decode(o.a1).Some?
  {
    (c.decode(o.a0).value, c.decode(o.a1).value)
  }

  /** A transcript on the wire as the prover writes it: its points in their own encoding. */
  ghost predicate Canonical<P>(c: Curve<P>, o: OrProof) {
    && c.decode(o.a0).Some? && c.encode(c.decode(o.a0).value) == o.a0
    && c.decode(o.a1).Some? && c.encode(c.decode(o.a1).value) == o.a1
  }

  /**
   The honest prover for bit b emits exactly the accepted transcripts: a transcript on the
   commitment passes the verifier if and only if some nonces in range make the prover emit it.
   */
  lemma EmittedIffAccepted<P(!new)>(c: Curve<P>, hash: Hash<P>, b: nat, r: nat, o: OrProof)
    requires Lawful(c) && c.q > 0 && b <= 1 && Canonical(c, o)
    ensures VerifyBitOR(c, hash, c.encode(Com(c, b, r)), o) <==>
              exists k :: Drawn(c.q, k) && CommitBitAndProve(c, hash, b, r, k) == (c.encode(Com(c, b, r)), o)
  {
    hide Lawful, BranchesHold, Com, CommitBitAndProve, Canonical;
    var Ci := c.encode(Com(c, b, r));
    if VerifyBitOR(c, hash, Ci, o) {
      var k := AcceptedHasNonces(c, hash, b, r, o);
    }
    forall k | Drawn(c.q, k) && CommitBitAndProve(c, hash, b, r, k) == (Ci, o)
      ensures VerifyBitOR(c, hash, Ci, o)
    {
      BitComplete(c, hash, b, r, k);
    }
  }

  lemma AcceptedHasNonces<P(!new)>(c: Curve<P>, hash: Hash<P>, b: nat, r: nat, o: OrProof) returns (k: Nonces)
    requires Lawful(c) && c.q > 0 && b <= 1 && Canonical(c, o)
    requires VerifyBitOR(c, hash, c.encode(Com(c, b, r)), o)
    ensures Drawn(c.q, k) && CommitBitAndProve(c, hash, b, r, k) == (c.encode(Com(c, b, r)), o)
  {
    hide Lawful, BranchesHold, Com, CommitBitAndProve, ScMul;
    var (a0, a1) := PointsOf(c, o);
    Decodes(c, Com(c, b, r));
    var e := Challenge(c, hash, Com(c, b, r), a0, a1);
    k := NoncesBehind(c.q, b, r, e, o);
    ProverEmits(c, hash, b, r, a0, a1, o, e, k);
  }

  /** Different nonces give different transcripts: the ones behind a transcript are a function of it. */
  lemma NoncesDetermined<P(!new)>(c: Curve<P>, hash: Hash<P>, b: nat, r: nat, k: Nonces, e: nat)
    requires Lawful(c) && c.q > 0 && b <= 1 && Drawn(c.q, k)
    ensures var o := CommitBitAndProve(c, hash, b, r, k).1;
            c.decode(o.a0).Some? && c.decode(o.a1).Some? &&
            (e == Challenge(c, hash, Com(c, b, r), PointsOf(c, o).0, PointsOf(c, o).1) ==>
               k == NoncesBehind(c.q, b, r, e, o))
  {
    hide Lawful, Com, Challenge, Sub, ScMul, ScSub, ScAdd, CommitBitAndProve;
    var C := Com(c, b, r);
    var honest := c.mul(k.kTrue, c.h);
    Decodes(c, honest);
    if b == 0 {
      var fake := Sub(c, c.mul(k.sFake, c.h), c.mul(k.eFake, Sub(c, C, c.g)));
      Decodes(c, fake);
      ProveZero(c, hash, r, k);
      ScSubBack(c.q, Challenge(c, hash, C, honest, fake), k.eFake);
      SubBack(c.q, k.kTrue, ScMul(c.q, ScSub(c.q, Challenge(c, hash, C, honest, fake), k.eFake), r));
    } else {
      var fake := Sub(c, c.mul(k.sFake, c.h), c.mul(k.eFake, C));
      Decodes(c, fake);
      ProveOne(c, hash, r, k);
      SubBack(c.q, k.kTrue, ScMul(c.q, ScSub(c.q, Challenge(c, hash, C, fake, honest), k.eFake), r));
    }
  }

  /**
   Perfect witness hiding: when a commitment opens both to 0 and to 1, every transcript the prover
   for either bit can emit is emitted by the prover for the other bit too, under exactly one draw of
   nonces in range. Uniform nonces therefore give both bits the same distribution of transcripts.
   */
  lemma BitHidden<P(!new)>(c: Curve<P>, hash: Hash<P>, b: nat, r: nat, b': nat, r': nat, k: Nonces)
    returns (k': Nonces)
    requires Lawful(c) && c.q > 0 && b <= 1 && b' <= 1 && Com(c, b, r) == Com(c, b', r') && Drawn(c.q, k)
    ensures Drawn(c.q, k')
    ensures CommitBitAndProve(c, hash, b', r', k') == CommitBitAndProve(c, hash, b, r, k)
    ensures forall j :: Drawn(c.q, j) && CommitBitAndProve(c, hash, b', r', j) == CommitBitAndProve(c, hash, b, r, k)
              ==> j == k'
  {
    hide Lawful, BranchesHold, Com, Challenge, CommitBitAndProve, VerifyBitOR, NoncesBehind;
    var (Ci, o) := CommitBitAndProve(c, hash, b, r, k);
    EmitsCanonical(c, hash, b, r, k);
    BitComplete(c, hash, b, r, k);
    k' := AcceptedHasNonces(c, hash, b', r', o);
    var e := Challenge(c, hash, Com(c, b, r), PointsOf(c, o).0, PointsOf(c, o).1);
    NoncesDetermined(c, hash, b', r', k', e);
    forall j | Drawn(c.q, j) && CommitBitAndProve(c, hash, b', r', j) == (Ci, o) ensures j == k' {
      NoncesDetermined(c, hash, b', r', j, e);
    }
  }

  lemma EmitsCanonical<P(!new)>(c: Curve<P>, hash: Hash<P>, b: nat, r: nat, k: Nonces)
    requires Lawful(c) && c.q > 0 && b <= 1
    ensures CommitBitAndProve(c, hash, b, r, k).0 == c.encode(Com(c, b, r))
    ensures Canonical(c, CommitBitAndProve(c, hash, b, r, k).1)
  {
    hide Lawful, Challenge, Sub, ScMul, ScSub, ScAdd, CommitBitAndProve;
    var honest := c.mul(k.kTrue, c.h);
    Decodes(c, honest);
    if b == 0 {
      Decodes(c, Sub(c, c.mul(k.sFake, c.h), c.mul(k.eFake, Sub(c, Com(c, 0, r), c.g))));
      ProveZero(c, hash, r, k);
    } else {
      Decodes(c, Sub(c, c.mul(k.sFake, c.h), c.mul(k.eFake, Com(c, 1, r))));
      ProveOne(c, hash, r, k);
    }
  }

  // ---- honest-verifier zero knowledge of one bit ----

  ghost predicate ConstantHash<P(!new)>(hash: Hash<P>, e: nat) {
    forall C, a0, a1 :: hash(C, a0, a1) == e
  }

  lemma ConstantChallenge<P(!new)>(c: Curve<P>, hash: Hash<P>, e: nat, Ci: Wire, o: OrProof)
    requires e < c.q && ConstantHash(hash, e)
    requires c.decode(Ci).Some? && c.decode(o.a0).Some? && c.decode(o.a1).Some?
    ensures ChallengeOf(c, hash, Ci, o) == e
  {
    ModOfShift(e, 0, c.q);
  }

  /** The transcript a simulator writes for a challenge from three scalars, without knowing any opening. */
  function Simulated<P>(c: Curve<P>, C: P, e: nat, e0: nat, s0: nat, s1: nat): OrProof
    requires c.q > 0
  {
    OrProof(c.encode(Sub(c, c.mul(s0, c.h), c.mul(e0, C))),
            c.encode(Sub(c, c.mul(s1, c.h), c.mul(ScSub(c.q, e, e0), Sub(c, C, c.g)))),
            e0, s0, s1)
  }

  /** Every simulated transcript is emitted by the honest prover under exactly one draw of nonces. */
  lemma SimulatedIsEmitted<P(!new)>(
      c: Curve<P>, hash: Hash<P>, e: nat, b: nat, r: nat, e0: nat, s0: nat, s1: nat) returns (k: Nonces)
    requires Lawful(c) && c.q > 0 && b <= 1 && ConstantHash(hash, e) && e < c.q && e0 < c.q && s0 < c.q && s1 < c.q
    ensures Drawn(c.q, k)
    ensures CommitBitAndProve(c, hash, b, r, k)
         == (c.encode(Com(c, b, r)), Simulated(c, Com(c, b, r), e, e0, s0, s1))
    ensures forall j :: Drawn(c.q, j) && CommitBitAndProve(c, hash, b, r, j) == CommitBitAndProve(c, hash, b, r, k)
              ==> j == k
  {
    hide Lawful, Com, Sub, ScSub, ConstantHash, CommitBitAndProve, Challenge;
    var C := Com(c, b, r);
    var o := Simulated(c, C, e, e0, s0, s1);
    SimulatedPasses(c, hash, e, C, e0, s0, s1);
    Decodes(c, Sub(c, c.mul(s0, c.h), c.mul(e0, C)));
    Decodes(c, Sub(c, c.mul(s1, c.h), c.mul(ScSub(c.q, e, e0), Sub(c, C, c.g))));
    var k' := AcceptedHasNonces(c, hash, b, r, o);
    k := BitHidden(c, hash, b, r, b, r, k');
  }

  lemma SimulatedPasses<P(!new)>(c: Curve<P>, hash: Hash<P>, e: nat, C: P, e0: nat, s0: nat, s1: nat)
    requires Lawful(c) && c.q > 0 && ConstantHash(hash, e) && e < c.q && e0 < c.q && s0 < c.q && s1 < c.q
    ensures VerifyBitOR(c, hash, c.encode(C), Simulated(c, C, e, e0, s0, s1))
  {
    hide Lawful, Sub, ScSub, ConstantHash, Challenge;
    var a0 := Sub(c, c.mul(s0, c.h), c.mul(e0, C));
    var a1 := Sub(c, c.mul(s1, c.h), c.mul(ScSub(c.q, e, e0), Sub(c, C, c.g)));
    FakeBranch(c, s0, e0, C);
    FakeBranch(c, s1, ScSub(c.q, e, e0), Sub(c, C, c.g));
    Decodes(c, C);
    Decodes(c, a0);
    Decodes(c, a1);
    ConstantChallenge(c, hash, e, c.encode(C), Simulated(c, C, e, e0, s0, s1));
  }

  /**
   Every transcript the honest prover emits for a challenge is the one the simulator writes from its
   three scalars. With SimulatedIsEmitted: for each challenge, nonces in range and triples of scalars
   correspond one to one, so the simulator's uniform triples give exactly the honest distribution.
   */
  lemma EmittedIsSimulated<P(!new)>(c: Curve<P>, hash: Hash<P>, e: nat, b: nat, r: nat, k: Nonces)
    requires Lawful(c) && c.q > 0 && b <= 1 && ConstantHash(hash, e) && e < c.q && Drawn(c.q, k)
    ensures var (Ci, o) := CommitBitAndProve(c, hash, b, r, k);
            && o == Simulated(c, Com(c, b, r), e, o.e0, o.s0, o.s1)
            && o.e0 < c.q && o.s0 < c.q && o.s1 < c.q
  {
    hide Lawful, Com, Sub, ScSub, ConstantHash, CommitBitAndProve, Challenge;
    var (Ci, o) := CommitBitAndProve(c, hash, b, r, k);
    var C := Com(c, b, r);
    BitComplete(c, hash, b, r, k);
    EmitsCanonical(c, hash, b, r, k);
    Decodes(c, C);
    ConstantChallenge(c, hash, e, Ci, o);
    var (a0, a1) := PointsOf(c, o);
    AddCancel(c, a0, c.mul(o.e0, C));
    AddCancel(c, a1, c.mul(ScSub(c.q, e, o.e0), Sub(c, C, c.g)));
  }

  // ---- the whole proof ----

  /** Multiples of H below the prime order are different points. */
  lemma MultiplesDiffer<P(!new)>(c: Curve<P>, r: nat, s: nat)
    requires Lawful(c) && IsPrime(c.q) && c.h != c.zero && r < c.q && s < c.q
    requires c.mul(r, c.h) == c.mul(s, c.h)
    ensures r == s
  {
    hide Lawful, IsPrime, Inverse, Com;
    if r != s {
      var d := ScSub(c.q, r, s);
      Differ(c.q, r, s);
      ComBlind(c, r);
      ComBlind(c, s);
      ComSub(c, 0, r, 0, s);
      ComSub(c, 0, s, 0, s);
      ComBlind(c, r - s);
      ComZero(c);
      MulMod(c, r - s, c.h);
      InverseCancels(c, d, c.h);
      MulUnits(c, c.h);
      MulMul(c, Inverse(d, c.q), 0, c.h);
    }
  }

  /** G is a multiple of H: so it is in a group of prime order, whoever knows the factor. */
  ghost predicate Related<P>(c: Curve<P>, ratio: int) {
    c.g == c.mul(ratio, c.h)
  }

  /** The blinding that opens a commitment to another bit. */
  function OtherBlinding(q: nat, ratio: int, b: nat, r: nat, b': nat): nat
    requires q > 0
  {
    (r + (b - b') * ratio) % q
  }

  lemma ComAsMultiple<P(!new)>(c: Curve<P>, ratio: int, x: int, r: int)
    requires Lawful(c) && Related(c, ratio)
    ensures Com(c, x, r) == c.mul(x * ratio + r, c.h)
  {
    hide Lawful;
    MulMul(c, x, ratio, c.h);
    MulPlus(c, x * ratio, r, c.h);
  }

  lemma OpensOther<P(!new)>(c: Curve<P>, ratio: int, b: nat, r: nat, b': nat)
    requires Lawful(c) && c.q > 0 && Related(c, ratio)
    ensures Com(c, b', OtherBlinding(c.q, ratio, b, r, b')) == Com(c, b, r)
  {
    var r' := r + (b - b') * ratio;
    ComMod(c, b', r');
    ComAsMultiple(c, ratio, b, r);
    ComAsMultiple(c, ratio, b', r');
    assert b' * ratio + r' == b * ratio + r;
    hide Lawful, Com, Related;
  }

  lemma BlindingUnique<P(!new)>(c: Curve<P>, b: nat, r: nat, s: nat)
    requires Lawful(c) && IsPrime(c.q) && c.h != c.zero && r < c.q && s < c.q
    requires c.encode(Com(c, b, r)) == c.encode(Com(c, b, s))
    ensures r == s
  {
    hide Lawful, IsPrime, Com;
    Decodes(c, Com(c, b, r));
    Decodes(c, Com(c, b, s));
    ComSub(c, b, r, b, 0);
    ComSub(c, b, s, b, 0);
    ComBlind(c, r);
    ComBlind(c, s);
    MultiplesDiffer(c, r, s);
  }

  /** The randomness of a whole proof, in its range. */
  predicate InRange(q: nat, n: nat, rs: seq<nat>, ks: seq<Nonces>) {
    && |rs| == |ks| == n
    && (forall i :: 0 <= i < n ==> rs[i] < q)
    && (forall i :: 0 <= i < n ==> Drawn(q, ks[i]))
  }

  /** One bit of a proof and the only randomness with which the prover for another bit emits the same. */
  lemma BitMatched<P(!new)>(c: Curve<P>, hash: Hash<P>, ratio: int, b: nat, r: nat, k: Nonces, b': nat)
    returns (r': nat, k': Nonces)
    requires Lawful(c) && IsPrime(c.q) && c.h != c.zero && Related(c, ratio) && b <= 1 && b' <= 1
    requires Drawn(c.q, k)
    ensures r' < c.q && Drawn(c.q, k') && Com(c, b', r') == Com(c, b, r)
    ensures CommitBitAndProve(c, hash, b', r', k') == CommitBitAndProve(c, hash, b, r, k)
    ensures forall s: nat, j ::
              s < c.q && Drawn(c.q, j) && CommitBitAndProve(c, hash, b', s, j) == CommitBitAndProve(c, hash, b, r, k)
              ==> s == r' && j == k'
  {
    hide Lawful, IsPrime, Related, Com, CommitBitAndProve, OtherBlinding, Canonical;
    OtherBelow(c.q, ratio, b, r, b');
    r' := OtherBlinding(c.q, ratio, b, r, b');
    OpensOther(c, ratio, b, r, b');
    k' := BitHidden(c, hash, b, r, b', r', k);
    EmitsCanonical(c, hash, b, r, k);
    forall s: nat, j | s < c.q && Drawn(c.q, j)
        && CommitBitAndProve(c, hash, b', s, j) == CommitBitAndProve(c, hash, b, r, k)
      ensures s == r' && j == k'
    {
      EmitsCanonical(c, hash, b', s, j);
      EmitsCanonical(c, hash, b', r', k');
      BlindingUnique(c, b', s, r');
    }
  }

  lemma OtherBelow(q: nat, ratio: int, b: nat, r: nat, b': nat)
    requires q > 0
    ensures OtherBlinding(q, ratio, b, r, b') < q
  {
  }

  ghost predicate SameBits<P>(c: Curve<P>, hash: Hash<P>, x: nat, rs: seq<nat>, ks: seq<Nonces>,
                              y: nat, rs': seq<nat>, ks': seq<Nonces>, n: nat)
    requires c.q > 0 && n <= |rs| && n <= |ks| && n <= |rs'| && n <= |ks'|
  {
    forall i :: 0 <= i < n ==>
      CommitBitAndProve(c, hash, BitOf(y, i), rs'[i], ks'[i]) == CommitBitAndProve(c, hash, BitOf(x, i), rs[i], ks[i])
  }

  /** Proofs with the same bits are the same proof: their aggregate commitments agree as well. */
  lemma SameBitsSameProof<P(!new)>(c: Curve<P>, hash: Hash<P>, n: nat,
                                   x: nat, rs: seq<nat>, ks: seq<Nonces>, y: nat, rs': seq<nat>, ks': seq<Nonces>)
    requires Lawful(c) && c.q > 0 && x < Pow2(n) && y < Pow2(n)
    requires |rs| == |ks| == n && |rs'| == |ks'| == n
    requires ProofOf(c, hash, y, n, rs', ks') == ProofOf(c, hash, x, n, rs, ks)
             || SameBits(c, hash, x, rs, ks, y, rs', ks', n)
    ensures SameBits(c, hash, x, rs, ks, y, rs', ks', n)
    ensures ProofOf(c, hash, y, n, rs', ks') == ProofOf(c, hash, x, n, rs, ks)
  {
    hide Lawful, Com, CommitBitAndProve, WeightedInts, WeightedSum, BitOf, Pow2;
    var p, p' := ProofOf(c, hash, x, n, rs, ks), ProofOf(c, hash, y, n, rs', ks');
    if p == p' {
      forall i | 0 <= i < n
        ensures CommitBitAndProve(c, hash, BitOf(y, i), rs'[i], ks'[i])
             == CommitBitAndProve(c, hash, BitOf(x, i), rs[i], ks[i])
      {
        assert p.bits[i] == p'.bits[i] && p.ors[i] == p'.ors[i];
      }
    }
    BitsDecode(c, hash, x, n, rs, ks);
    BitsDecode(c, hash, y, n, rs', ks');
    assert rs[..n] == rs && rs'[..n] == rs';
    assert p'.bits == p.bits && p'.ors == p.ors;
    HonestSum(c, x, n, p.bits, rs);
    HonestSum(c, y, n, p.bits, rs');
  }

  lemma BitsDecode<P(!new)>(c: Curve<P>, hash: Hash<P>, x: nat, n: nat, rs: seq<nat>, ks: seq<Nonces>)
    requires Lawful(c) && c.q > 0 && |rs| == |ks| == n
    ensures forall i :: 0 <= i < n ==>
              c.decode(CommitBitAndProve(c, hash, BitOf(x, i), rs[i], ks[i]).0) == Some(Com(c, BitOf(x, i), rs[i]))
  {
    hide Lawful, Com, CommitBitAndProve, BitOf, Canonical;
    forall i | 0 <= i < n
      ensures c.decode(CommitBitAndProve(c, hash, BitOf(x, i), rs[i], ks[i]).0) == Some(Com(c, BitOf(x, i), rs[i]))
    {
      BitIsBit(x, i);
      EmitsCanonical(c, hash, BitOf(x, i), rs[i], ks[i]);
      Decodes(c, Com(c, BitOf(x, i), rs[i]));
    }
  }

  /** The first m bits of a proof of x, matched by the prover for y in exactly one way. */
  lemma {:induction false} BitsMatched<P(!new)>(c: Curve<P>, hash: Hash<P>, ratio: int, n: nat,
                                                x: nat, rs: seq<nat>, ks: seq<Nonces>, y: nat, m: nat)
    returns (rs': seq<nat>, ks': seq<Nonces>)
    requires Lawful(c) && IsPrime(c.q) && c.h != c.zero && Related(c, ratio)
    requires InRange(c.q, n, rs, ks) && m <= n
    ensures InRange(c.q, m, rs', ks') && SameBits(c, hash, x, rs, ks, y, rs', ks', m)
    ensures forall qs, js :: InRange(c.q, m, qs, js) && SameBits(c, hash, x, rs, ks, y, qs, js, m)
              ==> qs == rs' && js == ks'
  {
    hide Lawful, IsPrime, Related, Com, CommitBitAndProve, BitOf, Drawn;
    if m == 0 {
      rs', ks' := [], [];
    } else {
      var i := m - 1;
      var front, frontKs := BitsMatched(c, hash, ratio, n, x, rs, ks, y, i);
      BitIsBit(x, i);
      BitIsBit(y, i);
      var r', k' := BitMatched(c, hash, ratio, BitOf(x, i), rs[i], ks[i], BitOf(y, i));
      rs', ks' := front + [r'], frontKs + [k'];
      forall qs, js | InRange(c.q, m, qs, js) && SameBits(c, hash, x, rs, ks, y, qs, js, m)
        ensures qs == rs' && js == ks'
      {
        assert InRange(c.q, i, qs[..i], js[..i]) && SameBits(c, hash, x, rs, ks, y, qs[..i], js[..i], i);
        assert qs == qs[..i] + [qs[i]] && js == js[..i] + [js[i]];
        assert Drawn(c.q, js[i]) && qs[i] < c.q;
      }
    }
  }

  /**
   Perfect witness hiding of the whole proof: for any two values of n bits, every proof the prover for
   one can emit is emitted by the prover for the other under exactly one randomness in range. Uniform
   blindings and nonces therefore give both values the same distribution of proofs.
   */
  lemma ValueHidden<P(!new)>(c: Curve<P>, hash: Hash<P>, ratio: int, n: nat,
                             x: nat, rs: seq<nat>, ks: seq<Nonces>, y: nat)
    returns (rs': seq<nat>, ks': seq<Nonces>)
    requires Lawful(c) && IsPrime(c.q) && c.q > 0 && c.h != c.zero && Related(c, ratio)
    requires x < Pow2(n) && y < Pow2(n) && InRange(c.q, n, rs, ks)
    ensures InRange(c.q, n, rs', ks') && ProofOf(c, hash, y, n, rs', ks') == ProofOf(c, hash, x, n, rs, ks)
    ensures forall qs, js :: InRange(c.q, n, qs, js) && ProofOf(c, hash, y, n, qs, js) == ProofOf(c, hash, x, n, rs, ks)
              ==> qs == rs' && js == ks'
  {
    hide Lawful, IsPrime, Related, ProofOf, SameBits, Pow2;
    rs', ks' := BitsMatched(c, hash, ratio, n, x, rs, ks, y, n);
    SameBitsSameProof(c, hash, n, x, rs, ks, y, rs', ks');
    forall qs, js | InRange(c.q, n, qs, js) && ProofOf(c, hash, y, n, qs, js) == ProofOf(c, hash, x, n, rs, ks)
      ensures qs == rs' && js == ks'
    {
      SameBitsSameProof(c, hash, n, x, rs, ks, y, qs, js);
    }
  }

  // ---- the extractor against the honest prover ----

  /**
   The extractor finds what the honest prover put in: rewinding the prover for bit b, with the same
   nonces but a different challenge, is a fork, and the bit extracted from it is b.
   */
  lemma HonestForkRevealsBit<P(!new)>(c: Curve<P>, hash: Hash<P>, hash': Hash<P>, b: nat, r: nat, k: Nonces)
    requires Lawful(c) && IsPrime(c.q) && c.q > 0 && b <= 1 && Drawn(c.q, k)
    ensures var (Ci, o) := CommitBitAndProve(c, hash, b, r, k);
            var (Ci', o') := CommitBitAndProve(c, hash', b, r, k);
            && VerifyBitOR(c, hash, Ci, o) && VerifyBitOR(c, hash', Ci, o')
            && Ci' == Ci && o'.a0 == o.a0 && o'.a1 == o.a1
            && (ChallengeOf(c, hash, Ci, o) != ChallengeOf(c, hash', Ci, o) ==>
                  && ForkedAt(c, hash, hash', Ci, o, o')
                  && ExtractBit(c.q, ChallengeOf(c, hash, Ci, o), ChallengeOf(c, hash', Ci, o), o, o').0 == b)
  {
    hide Lawful, IsPrime, BranchesHold, Sub, ScMul, ScSub, ScAdd, CommitBitAndProve, Quotient, Challenge;
    BitComplete(c, hash, b, r, k);
    BitComplete(c, hash', b, r, k);
    EmitsCanonical(c, hash, b, r, k);
    EmitsCanonical(c, hash', b, r, k);
    if b == 0 {
      ProveZero(c, hash, r, k);
      ProveZero(c, hash', r, k);
      var (Ci, o) := CommitBitAndProve(c, hash, b, r, k);
      var e, e' := ChallengeOf(c, hash, Ci, o), ChallengeOf(c, hash', Ci, o);
      Decodes(c, c.mul(k.kTrue, c.h));
      Decodes(c, Sub(c, c.mul(k.sFake, c.h), c.mul(k.eFake, Sub(c, Com(c, 0, r), c.g))));
      ChallengeBelow(c, hash, Ci, o);
      ChallengeBelow(c, hash', Ci, o);
      if e != e' { SecondShareDiffers(c.q, e, e', k.eFake); }
    } else {
      ProveOne(c, hash, r, k);
      ProveOne(c, hash', r, k);
    }
  }

  lemma ChallengeBelow<P>(c: Curve<P>, hash: Hash<P>, Ci: Wire, o: OrProof)
    requires c.q > 0 && c.decode(Ci).Some? && c.decode(o.a0).Some? && c.decode(o.a1).Some?
    ensures ChallengeOf(c, hash, Ci, o) < c.q
  {
  }

  /** Rewinding the honest prover of a one-bit proof gives a fork of the whole proof. */
  lemma HonestFork<P(!new)>(c: Curve<P>, hash: Hash<P>, hash': Hash<P>, b: nat, r: nat, k: Nonces)
    returns (rp: RangeProof, reruns: seq<Rerun<P>>)
    requires Lawful(c) && IsPrime(c.q) && c.q > 0 && b <= 1 && Drawn(c.q, k)
    requires ConstantHash(hash, 0) && ConstantHash(hash', 1)
    ensures Forked(c, hash, rp, reruns) && rp.n == 1
  {
    hide Lawful, IsPrime, VerifyBitOR, CommitBitAndProve, WeightedSum, DecodeAll, ExtractBit, ChallengeOf, ForkedAt,
         ConstantHash;
    var (Ci, o) := CommitBitAndProve(c, hash, b, r, k);
    var (Ci', o') := CommitBitAndProve(c, hash', b, r, k);
    EmitsCanonical(c, hash, b, r, k);
    HonestForkRevealsBit(c, hash, hash', b, r, k);
    PrimeAboveOne(c.q);
    Decodes(c, Com(c, b, r));
    ConstantChallenge(c, hash, 0, Ci, o);
    ConstantChallenge(c, hash', 1, Ci, o);
    OneBitSum(c, Ci);
    rp, reruns := RangeProof(1, Ci, [Ci], [o]), [Rerun(hash', o')];
  }

  lemma PrimeAboveOne(q: nat)
    requires IsPrime(q)
    ensures q > 1
  {
  }

  /**
   Forks exist: over a concrete group that meets every assumption of the soundness and hiding theorems, an
   accepted proof and a rerun of its bit that shares the first message and meets a different challenge.
   */
  lemma ForksExist() returns (hash: Hash<Residue>, rp: RangeProof, reruns: seq<Rerun<Residue>>)
    ensures Lawful(Residues()) && IsPrime(Residues().q) && Residues().h != Residues().zero
    ensures Related(Residues(), 3)
    ensures Residues().q > 0 && Forked(Residues(), hash, rp, reruns) && rp.n == 1
  {
    hide Forked;
    ResiduesLawful();
    hash := (C, a0, a1) => 0;
    var hash' := (C, a0, a1) => 1;
    rp, reruns := HonestFork(Residues(), hash, hash', 0, 1, Nonces(0, 0, 0));
  }

  lemma OneBitSum<P(!new)>(c: Curve<P>, Ci: Wire)
    requires Lawful(c) && c.decode(Ci).Some?
    ensures c.decode(Ci) == Some(WeightedSum(c, DecodeAll(c, [Ci])))
  {
    hide Lawful;
    var p := c.decode(Ci).value;
    assert DecodeAll(c, [Ci]) == [p];
    assert [p][..0] == [];
    MulUnits(c, p);
    AddZero(c, p);
    assert WeightedSum(c, [p]) == c.add(c.zero, c.mul(Pow2(0), p));
  }
}
