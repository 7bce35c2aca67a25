/**
 When a ring built by creations can sign, and migrate a signature to: for exactly the algorithms a key
 was created for.
 */
module KeyRingRuns {
  import opened Digests
  import opened Wrappers
  import opened KeyRing
  import HybridSignature
  import Lamport

  /** The private half of an entry's algorithm is there. */
  predicate HasPrivate(e: Entry) {
    && (e.meta.algo == ED25519 || e.meta.algo == HYBRID ==> e.edPriv.Some?)
    && (e.meta.algo == MLDSA65 || e.meta.algo == HYBRID ==> e.mlPriv.Some?)
    && (e.meta.algo == LAMPORT ==> e.lamPriv.Some?)
  }

  ghost predicate AllPrivate(r: Ring) {
    forall id :: id in r.keys ==> HasPrivate(r.keys[id])
  }

  /** A well-formed entry signs exactly when its private half is there. */
  lemma EntrySignsIff(s: Schemes, e: Entry, m: Bytes)
    requires Correct(s) && WellFormed(s, e)
    ensures EntrySign(s, e, m).Ok? <==> HasPrivate(e)
  {
    hide Lamport.Signature, Lamport.PublicOf;
    if e.edPriv.Some? && e.mlPriv.Some? {
      SignatureSizes(s, e.edPriv.value, e.mlPriv.value, m);
    }
  }

  lemma SignatureSizes(s: Schemes, ed: Bytes, ml: Bytes, m: Bytes)
    requires Correct(s) && |ed| == ED_PRIVATE && |ml| == ML_PRIVATE
    ensures HybridSignature.Encode(HybridSignature.Parts(s.edSign(ed, m), s.mlSign(ml, m))).Some?
  {
  }

  lemma NewPrivate(s: Schemes, r: Ring, algo: string, f: Randomness, now: int)
    requires MaxOf(r, algo) >= 0 && Generate(s, algo, f).Ok?
    ensures HasPrivate(NewEntry(s, r, algo, Generate(s, algo, f).value, now))
  {
    hide PublicBytes, KeyId, Lamport.PublicOf;
  }

  lemma CreateEffect(s: Schemes, r: Ring, algo: string, f: Randomness, now: int)
    requires MaxOf(r, algo) >= 0 && AllPrivate(r)
    ensures Create(s, r, algo, f, now).Ok? <==> Supported(algo)
    ensures Create(s, r, algo, f, now).Ok? ==>
              var t := Create(s, r, algo, f, now).value;
              AllPrivate(t) && t.active.Keys == r.active.Keys + {algo}
  {
    if Generate(s, algo, f).Ok? { NewPrivate(s, r, algo, f, now); }
    hide NewEntry, PublicBytes, KeyId, Lamport.PublicOf;
  }

  predicate CreatedFor(cs: seq<Creation>, k: nat, algo: string)
    requires k <= |cs|
  {
    exists i :: 0 <= i < k && cs[i].algo == algo
  }

  lemma {:induction false} ActiveIffCreated(s: Schemes, cs: seq<Creation>, k: nat, algo: string)
    requires Correct(s) && ValidRun(cs) && k <= |cs|
    ensures AllPrivate(After(s, EMPTY, cs, k))
    ensures algo in After(s, EMPTY, cs, k).active <==> Supported(algo) && CreatedFor(cs, k, algo)
  {
    hide Correct, Inv, Create, Supported, AllPrivate, ValidRandomness;
    if k == 0 {
      NothingPrivate();
    } else {
      ActiveIffCreated(s, cs, k - 1, algo);
      EmptyInv(s);
      RunKeeps(s, EMPTY, cs, k - 1, k - 1);
      var before, c := After(s, EMPTY, cs, k - 1), cs[k - 1];
      MaxNonNegative(s, before, c.algo);
      CreateEffect(s, before, c.algo, c.randomness, c.now);
      assert CreatedFor(cs, k, algo) <==> CreatedFor(cs, k - 1, algo) || c.algo == algo;
    }
  }

  lemma NothingPrivate()
    ensures AllPrivate(EMPTY)
  {
  }

  /** A ring built by creations signs under an algorithm exactly when a key was created for it. */
  lemma SignsIffCreated(s: Schemes, cs: seq<Creation>, k: nat, algo: string, m: Bytes)
    requires Correct(s) && ValidRun(cs) && k <= |cs|
    ensures Sign(s, After(s, EMPTY, cs, k), algo, m).Ok? <==> Supported(algo) && CreatedFor(cs, k, algo)
  {
    hide Correct, Create, Supported, CreatedFor, ValidRun, After, HasPrivate;
    ActiveIffCreated(s, cs, k, algo);
    EmptyInv(s);
    RunKeeps(s, EMPTY, cs, k, k);
    var r := After(s, EMPTY, cs, k);
    ActiveInKeys(s, r, algo);
    if algo in r.active {
      InvEntry(s, r, r.active[algo]);
      EntrySignsIff(s, r.keys[r.active[algo]], m);
      hide Inv, EntrySign;
    }
  }

  /**
   On a ring built by creations a migration goes through exactly when the old signature verifies at its
   first step and a key of a supported target algorithm was created before its second.
   */
  lemma MigratesIff(
      s: Schemes, cs: seq<Creation>, j: nat, i: nat, k: nat, oldId: string, m: Bytes, oldSig: Bytes, toAlgo: string)
    requires Correct(s) && ValidRun(cs) && j <= i <= k <= |cs|
    ensures var verifying, lookingUp := After(s, EMPTY, cs, j), After(s, EMPTY, cs, i);
            MigrateAcross(s, verifying, lookingUp, After(s, EMPTY, cs, k), oldId, m, oldSig, toAlgo).Ok?
            <==> Verify(s, verifying, oldId, m, oldSig) == Ok(true) && Supported(toAlgo) && CreatedFor(cs, i, toAlgo)
  {
    hide Correct, Create, Supported, CreatedFor, ValidRun, After, Inv, Verify;
    ActiveIffCreated(s, cs, i, toAlgo);
    if toAlgo in After(s, EMPTY, cs, i).active { StillSigns(s, cs, i, k, toAlgo, m); }
  }

  /** The active key of one state still signs in every later one. */
  lemma StillSigns(s: Schemes, cs: seq<Creation>, i: nat, k: nat, algo: string, m: Bytes)
    requires Correct(s) && ValidRun(cs) && i <= k <= |cs| && algo in After(s, EMPTY, cs, i).active
    ensures After(s, EMPTY, cs, i).active[algo] != ""
    ensures SignWithKey(s, After(s, EMPTY, cs, k), After(s, EMPTY, cs, i).active[algo], m).Ok?
  {
    hide Correct, Create, Supported, ValidRun, After, HasPrivate, EntrySign, WellFormed, Inv, SameKey;
    EmptyInv(s);
    RunKeeps(s, EMPTY, cs, i, i);
    RunKeeps(s, EMPTY, cs, i, k);
    ActiveInKeys(s, After(s, EMPTY, cs, i), algo);
    ActiveIffCreated(s, cs, k, algo);
    var t, id := After(s, EMPTY, cs, k), After(s, EMPTY, cs, i).active[algo];
    InvEntry(s, t, id);
    EntrySignsIff(s, t.keys[id], m);
  }
}
