/**
 The signature key ring: versioned keys per algorithm, rotation, signing and verification, and the
 public and full snapshots. Ed25519 and ML-DSA-65 are any schemes that verify what they sign; their
 keys are identified with their encodings. Key generation takes its randomness as a parameter, and
 a snapshot is the document itself rather than its JSON text.
 */
module KeyRing {
  import opened Digests
  import opened Hex
  import opened Numerals
  import opened Wrappers
  import HybridSignature
  import Lamport

  const ED25519 := "ed25519"
  const MLDSA65 := "mldsa65"
  const LAMPORT := "lamport"
  const HYBRID := "hybrid_ed25519_mldsa65"

  // Sizes of RFC 8032 (Ed25519, private key with its public half) and FIPS 204 (ML-DSA-65).
  const ED_PRIVATE := 64
  const ED_PUBLIC := 32
  const ED_SIGNATURE := 64
  const ML_PRIVATE := 4032
  const ML_PUBLIC := 1952
  const ML_SIGNATURE := 3309

  datatype Error =
    | UnsupportedAlgo
    | UnknownKey
    | NoActiveKey
    | PrivateKeyMissing
    | InvalidKeyLength
    | InvalidSignature
    | BadHex
    | OldSignatureInvalid
    | UnsupportedSnapshot

  datatype Schemes = Schemes(
    sha: Sha256,
    edPublic: Bytes -> Bytes,
    edSign: (Bytes, Bytes) -> Bytes,
    edVerify: (Bytes, Bytes, Bytes) -> bool,
    mlPublic: Bytes -> Bytes,
    mlSign: (Bytes, Bytes) -> Bytes,
    mlVerify: (Bytes, Bytes, Bytes) -> bool)

  /** Public keys and signatures have their fixed sizes, and what a key signs its public key verifies. */
  ghost predicate Correct(s: Schemes) {
    && (forall sk :: |sk| == ED_PRIVATE ==> |s.edPublic(sk)| == ED_PUBLIC)
    && (forall sk :: |sk| == ML_PRIVATE ==> |s.mlPublic(sk)| == ML_PUBLIC)
    && (forall sk, m :: |sk| == ED_PRIVATE ==>
          |s.edSign(sk, m)| == ED_SIGNATURE && s.edVerify(s.edPublic(sk), m, s.edSign(sk, m)))
    && (forall sk, m :: |sk| == ML_PRIVATE ==>
          |s.mlSign(sk, m)| == ML_SIGNATURE && s.mlVerify(s.mlPublic(sk), m, s.mlSign(sk, m)))
  }

  datatype KeyMeta = KeyMeta(
    id: string, algo: string, version: int, publicKeyHex: string, createdAt: int, retiredAt: Option<int>, active: bool)

  datatype Entry = Entry(
    meta: KeyMeta,
    edPriv: Option<Bytes>, edPub: Option<Bytes>,
    mlPriv: Option<Bytes>, mlPub: Option<Bytes>,
    lamPriv: Option<Lamport.Key>, lamPub: Option<Lamport.Key>)

  datatype Ring = Ring(keys: map<string, Entry>, active: map<string, string>, maxVersion: map<string, int>)

  const EMPTY := Ring(map[], map[], map[])

  /** The random key material of one generation. */
  datatype Randomness = Randomness(ed: Bytes, ml: Bytes, lam: Lamport.Key)

  predicate ValidRandomness(f: Randomness) {
    |f.ed| == ED_PRIVATE && |f.ml| == ML_PRIVATE
  }

  predicate Supported(algo: string) {
    algo == ED25519 || algo == MLDSA65 || algo == LAMPORT || algo == HYBRID
  }

  // ---- keys ----

  const NO_META := KeyMeta("", "", 0, "", 0, None, false)

  function Generate(s: Schemes, algo: string, f: Randomness): Result<Entry, Error> {
    var blank := Entry(NO_META, None, None, None, None, None, None);
    if algo == ED25519 then Ok(blank.(edPriv := Some(f.ed), edPub := Some(s.edPublic(f.ed))))
    else if algo == MLDSA65 then Ok(blank.(mlPriv := Some(f.ml), mlPub := Some(s.mlPublic(f.ml))))
    else if algo == LAMPORT then Ok(blank.(lamPriv := Some(f.lam), lamPub := Some(Lamport.PublicOf(s.sha, f.lam))))
    else if algo == HYBRID then
      Ok(blank.(edPriv := Some(f.ed), edPub := Some(s.edPublic(f.ed)),
                mlPriv := Some(f.ml), mlPub := Some(s.mlPublic(f.ml))))
    else Err(UnsupportedAlgo)
  }

  function OrEmpty(b: Option<Bytes>): Bytes {
    if b.Some? then b.value else []
  }

  function Be32(n: nat): Bytes {
    [n / 0x100_0000 % 256, n / 0x1_0000 % 256, n / 256 % 256, n % 256]
  }

  /** The canonical public bytes; a hybrid key is its two halves behind the length of the first. */
  function PublicBytes(e: Entry): Bytes {
    if e.meta.algo == ED25519 then OrEmpty(e.edPub)
    else if e.meta.algo == MLDSA65 then OrEmpty(e.mlPub)
    else if e.meta.algo == LAMPORT then (if e.lamPub.Some? then Lamport.Flatten(e.lamPub.value) else [])
    else if e.meta.algo == HYBRID then Be32(|OrEmpty(e.edPub)|) + OrEmpty(e.edPub) + OrEmpty(e.mlPub)
    else []
  }

  function KeyId(s: Schemes, algo: string, version: nat, pub: Bytes): string {
    algo + ":v" + Decimal(version) + ":" + HexEncode(s.sha(pub)[..4])
  }

  predicate EdPair(s: Schemes, priv: Option<Bytes>, pub: Option<Bytes>) {
    && pub.Some? && |pub.value| == ED_PUBLIC
    && (priv.Some? ==> |priv.value| == ED_PRIVATE && s.edPublic(priv.value) == pub.value)
  }

  predicate MlPair(s: Schemes, priv: Option<Bytes>, pub: Option<Bytes>) {
    && pub.Some? && |pub.value| == ML_PUBLIC
    && (priv.Some? ==> |priv.value| == ML_PRIVATE && s.mlPublic(priv.value) == pub.value)
  }

  predicate LamportPair(s: Schemes, priv: Option<Lamport.Key>, pub: Option<Lamport.Key>) {
    && pub.Some?
    && (priv.Some? ==> Lamport.PublicOf(s.sha, priv.value) == pub.value)
  }

  /** Exactly the material of the entry's algorithm, of the right sizes and matching. */
  predicate WellFormed(s: Schemes, e: Entry) {
    if e.meta.algo == ED25519 then
      EdPair(s, e.edPriv, e.edPub) && e.mlPriv == None && e.mlPub == None && e.lamPriv == None && e.lamPub == None
    else if e.meta.algo == MLDSA65 then
      MlPair(s, e.mlPriv, e.mlPub) && e.edPriv == None && e.edPub == None && e.lamPriv == None && e.lamPub == None
    else if e.meta.algo == LAMPORT then
      LamportPair(s, e.lamPriv, e.lamPub) && e.edPriv == None && e.edPub == None && e.mlPriv == None && e.mlPub == None
    else
      && e.meta.algo == HYBRID && EdPair(s, e.edPriv, e.edPub) && MlPair(s, e.mlPriv, e.mlPub)
      && (e.edPriv.Some? <==> e.mlPriv.Some?) && e.lamPriv == None && e.lamPub == None
  }

  // ---- signing and verifying with one entry ----

  function EntrySign(s: Schemes, e: Entry, m: Bytes): Result<Bytes, Error> {
    if e.meta.algo == ED25519 then
      if e.edPriv.None? then Err(PrivateKeyMissing)
      else if |e.edPriv.value| != ED_PRIVATE then Err(InvalidKeyLength)
      else Ok(s.edSign(e.edPriv.value, m))
    else if e.meta.algo == MLDSA65 then
      if e.mlPriv.None? then Err(PrivateKeyMissing) else Ok(s.mlSign(e.mlPriv.value, m))
    else if e.meta.algo == LAMPORT then
      if e.lamPriv.None? then Err(PrivateKeyMissing) else Ok(Lamport.Signature(s.sha, e.lamPriv.value, m))
    else if e.meta.algo == HYBRID then
      if e.edPriv.None? || e.mlPriv.None? then Err(PrivateKeyMissing)
      else if |e.edPriv.value| != ED_PRIVATE then Err(InvalidKeyLength)
      else
        var parts := HybridSignature.Parts(s.edSign(e.edPriv.value, m), s.mlSign(e.mlPriv.value, m));
        var enc := HybridSignature.Encode(parts);
        if enc.None? then Err(InvalidSignature) else Ok(enc.value)
    else Err(UnsupportedAlgo)
  }

  function VerifyClassic(s: Schemes, pub: Option<Bytes>, m: Bytes, sig: Bytes): Result<bool, Error> {
    if |OrEmpty(pub)| != ED_PUBLIC then Err(InvalidKeyLength)
    else if |sig| != ED_SIGNATURE then Err(InvalidSignature)
    else Ok(s.edVerify(OrEmpty(pub), m, sig))
  }

  function VerifyMLDSA(s: Schemes, pub: Option<Bytes>, m: Bytes, sig: Bytes): Result<bool, Error> {
    if pub.None? then Err(InvalidKeyLength)
    else if |sig| != ML_SIGNATURE then Err(InvalidSignature)
    else Ok(s.mlVerify(pub.value, m, sig))
  }

  function VerifyLamport(s: Schemes, pub: Option<Lamport.Key>, m: Bytes, sig: Bytes): Result<bool, Error> {
    if pub.None? then Err(InvalidKeyLength)
    else if |sig| != Lamport.SIGNATURE_SIZE then Err(InvalidSignature)
    else Ok(Lamport.Verifies(s.sha, pub.value, m, sig))
  }

  /** Both components must verify. */
  function VerifyHybrid(s: Schemes, ed: Option<Bytes>, ml: Option<Bytes>, m: Bytes, sig: Bytes): Result<bool, Error> {
    var parts := HybridSignature.Decode(sig);
    if parts.None? then Err(InvalidSignature)
    else
      var classic := VerifyClassic(s, ed, m, parts.value.classic);
      if classic.Err? then classic
      else
        var pq := VerifyMLDSA(s, ml, m, parts.value.pq);
        if pq.Err? then pq else Ok(classic.value && pq.value)
  }

  function EntryVerify(s: Schemes, e: Entry, m: Bytes, sig: Bytes): Result<bool, Error> {
    if e.meta.algo == ED25519 then VerifyClassic(s, e.edPub, m, sig)
    else if e.meta.algo == MLDSA65 then VerifyMLDSA(s, e.mlPub, m, sig)
    else if e.meta.algo == LAMPORT then VerifyLamport(s, e.lamPub, m, sig)
    else if e.meta.algo == HYBRID then VerifyHybrid(s, e.edPub, e.mlPub, m, sig)
    else Err(UnsupportedAlgo)
  }

  /** What an entry signs, it verifies, for each of the four algorithms. */
  lemma EntrySignVerifies(s: Schemes, e: Entry, m: Bytes)
    requires Correct(s) && WellFormed(s, e) && EntrySign(s, e, m).Ok?
    ensures EntryVerify(s, e, m, EntrySign(s, e, m).value) == Ok(true)
  {
    hide HybridSignature.Decode, HybridSignature.Encode, Lamport.Verifies, Lamport.Signature, Lamport.PublicOf;
    if e.meta.algo == LAMPORT {
      Lamport.SignedVerifies(s.sha, e.lamPriv.value, m);
      LamportSizes(s.sha, e.lamPriv.value, m);
    } else if e.meta.algo == HYBRID {
      HybridVerifies(s, e.edPriv.value, e.mlPriv.value, m);
    }
  }

  lemma LamportSizes(sha: Sha256, priv: Lamport.Key, m: Bytes)
    ensures |Lamport.Signature(sha, priv, m)| == Lamport.SIGNATURE_SIZE
  {
    hide Lamport.Reveal;
  }

  lemma HybridVerifies(s: Schemes, ed: Bytes, ml: Bytes, m: Bytes)
    requires Correct(s) && |ed| == ED_PRIVATE && |ml| == ML_PRIVATE
    requires |s.edPublic(ed)| == ED_PUBLIC
    ensures var enc := HybridSignature.Encode(HybridSignature.Parts(s.edSign(ed, m), s.mlSign(ml, m)));
            enc.Some? && VerifyHybrid(s, Some(s.edPublic(ed)), Some(s.mlPublic(ml)), m, enc.value) == Ok(true)
  {
    var parts := HybridSignature.Parts(s.edSign(ed, m), s.mlSign(ml, m));
    assert HybridSignature.Encode(parts).Some?;
    hide HybridSignature.Decode, HybridSignature.Encode;
    HybridSignature.DecodeEncode(parts, []);
    assert HybridSignature.Encode(parts).value + [] == HybridSignature.Encode(parts).value;
  }

  // ---- what an entry accepts ----

  predicate HasEdPublic(e: Entry) {
    e.edPub.Some? && |e.edPub.value| == 32
  }

  /** Ed25519: exactly the 64-byte signatures the scheme accepts under a 32-byte key. */
  lemma Ed25519AcceptsIff(s: Schemes, e: Entry, m: Bytes, sig: Bytes)
    requires e.meta.algo == ED25519
    ensures EntryVerify(s, e, m, sig) == Ok(true) <==>
              HasEdPublic(e) && |sig| == 64 && s.edVerify(e.edPub.value, m, sig)
    ensures EntryVerify(s, e, m, sig) == Err(InvalidKeyLength) <==> !HasEdPublic(e)
    ensures EntryVerify(s, e, m, sig) == Err(InvalidSignature) <==> HasEdPublic(e) && |sig| != 64
  {
  }

  /** ML-DSA-65: exactly the 3309-byte signatures the scheme accepts. */
  lemma MLDSAAcceptsIff(s: Schemes, e: Entry, m: Bytes, sig: Bytes)
    requires e.meta.algo == MLDSA65
    ensures EntryVerify(s, e, m, sig) == Ok(true) <==>
              e.mlPub.Some? && |sig| == 3309 && s.mlVerify(e.mlPub.value, m, sig)
    ensures EntryVerify(s, e, m, sig) == Err(InvalidKeyLength) <==> e.mlPub.None?
    ensures EntryVerify(s, e, m, sig) == Err(InvalidSignature) <==> e.mlPub.Some? && |sig| != 3309
  {
  }

  /**
   Lamport: exactly the 256 chunks of 32 bytes of which chunk i hashes to one half of pair i of the
   public key bytes, the first half or the second as bit i of the message digest, read from the most
   significant bit of its first byte on, is 0 or 1.
   */
  lemma LamportAcceptsIff(s: Schemes, e: Entry, m: Bytes, sig: Bytes)
    requires e.meta.algo == LAMPORT
    ensures e.lamPub.Some? ==> |PublicBytes(e)| == 16384
    ensures EntryVerify(s, e, m, sig) == Ok(true) <==>
              && e.lamPub.Some? && |sig| == 8192
              && forall i :: 0 <= i < 256 ==>
                   var bit := s.sha(m)[i / 8] / Pow2(7 - i % 8) % 2;
                   s.sha(sig[32 * i..][..32]) == PublicBytes(e)[64 * i + 32 * bit..][..32]
    ensures EntryVerify(s, e, m, sig) == Err(InvalidKeyLength) <==> e.lamPub.None?
    ensures EntryVerify(s, e, m, sig) == Err(InvalidSignature) <==> e.lamPub.Some? && |sig| != 8192
  {
    hide Lamport.Verifies, Lamport.Flatten;
    if e.lamPub.Some? { Lamport.VerifiesIff(s.sha, e.lamPub.value, m, sig); }
  }

  /**
   Hybrid: exactly the strings of some version byte, the length 64 in two bytes and an Ed25519 signature,
   the length 3309 in two bytes and an ML-DSA signature, and anything after, of which each scheme accepts
   its half. One forged half is enough to be refused.
   */
  lemma HybridAcceptsIff(s: Schemes, e: Entry, m: Bytes, sig: Bytes)
    requires e.meta.algo == HYBRID
    ensures EntryVerify(s, e, m, sig) == Ok(true) <==>
              HasEdPublic(e) && e.mlPub.Some? && exists v: byte, classic: Bytes, pq: Bytes, trailing: Bytes ::
                && |classic| == 64 && |pq| == 3309
                && sig == [v, 0, 64] + classic + [12, 237] + pq + trailing
                && s.edVerify(e.edPub.value, m, classic) && s.mlVerify(e.mlPub.value, m, pq)
  {
    hide HybridSignature.Decode, HybridSignature.Encode;
    if EntryVerify(s, e, m, sig) == Ok(true) {
      var parts := HybridSignature.Decode(sig).value;
      var v, trailing := HybridSizes(sig);
      assert sig == [v, 0, 64] + parts.classic + [12, 237] + parts.pq + trailing;
    }
    forall v: byte, classic: Bytes, pq: Bytes, trailing: Bytes |
      |classic| == 64 && |pq| == 3309 && sig == [v, 0, 64] + classic + [12, 237] + pq + trailing
      ensures HybridSignature.Decode(sig) == Some(HybridSignature.Parts(classic, pq))
    {
      HybridDecodes(v, classic, pq, trailing);
    }
  }

  lemma HybridSizes(sig: Bytes) returns (v: byte, trailing: Bytes)
    requires HybridSignature.Decode(sig).Some?
    requires |HybridSignature.Decode(sig).value.classic| == 64 && |HybridSignature.Decode(sig).value.pq| == 3309
    ensures var p := HybridSignature.Decode(sig).value;
            sig == [v, 0, 64] + p.classic + [12, 237] + p.pq + trailing
  {
    hide HybridSignature.Decode, HybridSignature.Encode;
    var p := HybridSignature.Decode(sig).value;
    trailing := HybridSignature.DecodedShape(sig);
    v := sig[0];
    HybridSignature.EncodeTail(p);
    assert HybridSignature.Be16(64) == [0, 64] && HybridSignature.Be16(3309) == [12, 237];
    assert [v] + ([0, 64] + p.classic + ([12, 237] + p.pq)) + trailing
        == [v, 0, 64] + p.classic + [12, 237] + p.pq + trailing;
  }

  lemma HybridDecodes(v: byte, classic: Bytes, pq: Bytes, trailing: Bytes)
    requires |classic| == 64 && |pq| == 3309
    ensures HybridSignature.Decode([v, 0, 64] + classic + [12, 237] + pq + trailing)
            == Some(HybridSignature.Parts(classic, pq))
  {
    hide HybridSignature.Decode, HybridSignature.Encode;
    var p := HybridSignature.Parts(classic, pq);
    HybridSignature.EncodeTail(p);
    HybridSignature.VersionIgnored(p, v, trailing);
    assert HybridSignature.Be16(64) == [0, 64] && HybridSignature.Be16(3309) == [12, 237];
    assert [v] + ([0, 64] + classic + ([12, 237] + pq)) + trailing
        == [v, 0, 64] + classic + [12, 237] + pq + trailing;
  }

  // ---- what an entry signs with ----

  /** A single-scheme entry signs exactly when it holds its private key, and with that key. */
  lemma SigningIs(s: Schemes, e: Entry, m: Bytes)
    ensures e.meta.algo == ED25519 ==>
              EntrySign(s, e, m) == (if e.edPriv.None? then Err(PrivateKeyMissing)
                                     else if |e.edPriv.value| != 64 then Err(InvalidKeyLength)
                                     else Ok(s.edSign(e.edPriv.value, m)))
    ensures e.meta.algo == MLDSA65 ==>
              EntrySign(s, e, m) == (if e.mlPriv.None? then Err(PrivateKeyMissing) else Ok(s.mlSign(e.mlPriv.value, m)))
    ensures e.meta.algo == LAMPORT ==>
              && (EntrySign(s, e, m) == Err(PrivateKeyMissing) <==> e.lamPriv.None?)
              && (e.lamPriv.Some? ==> EntrySign(s, e, m).Ok?)
    ensures !Supported(e.meta.algo) ==> EntrySign(s, e, m) == Err(UnsupportedAlgo)
  {
    hide HybridSignature.Encode, Lamport.Signature;
  }

  /** A Lamport entry reveals, bit by bit of the digest, the matching half of each pair of its private key. */
  lemma LamportSigningIs(s: Schemes, e: Entry, m: Bytes, i: nat)
    requires e.meta.algo == LAMPORT && e.lamPriv.Some? && i < 256
    ensures var key, bit := Lamport.Flatten(e.lamPriv.value), s.sha(m)[i / 8] / Pow2(7 - i % 8) % 2;
            && EntrySign(s, e, m).Ok? && |EntrySign(s, e, m).value| == 8192 && |key| == 16384
            && EntrySign(s, e, m).value[32 * i..][..32] == key[64 * i + 32 * bit..][..32]
  {
    hide Lamport.Signature, Lamport.Flatten, Pow2;
    Lamport.SignatureAt(s.sha, e.lamPriv.value, m, i);
  }

  /** A hybrid entry writes version 1 and both schemes' signatures behind their lengths. */
  lemma HybridSigningIs(s: Schemes, e: Entry, m: Bytes)
    requires Correct(s) && e.meta.algo == HYBRID
    requires e.edPriv.Some? && e.mlPriv.Some? ==> |e.mlPriv.value| == 4032
    ensures EntrySign(s, e, m)
            == (if e.edPriv.None? || e.mlPriv.None? then Err(PrivateKeyMissing)
                else if |e.edPriv.value| != 64 then Err(InvalidKeyLength)
                else Ok([1, 0, 64] + s.edSign(e.edPriv.value, m) + [12, 237] + s.mlSign(e.mlPriv.value, m)))
  {
    if e.edPriv.Some? && e.mlPriv.Some? && |e.edPriv.value| == 64 {
      var ed, ml := s.edSign(e.edPriv.value, m), s.mlSign(e.mlPriv.value, m);
      HybridSignature.EncodeTail(HybridSignature.Parts(ed, ml));
      assert HybridSignature.Be16(64) == [0, 64] && HybridSignature.Be16(3309) == [12, 237];
      assert [1] + ([0, 64] + ed + ([12, 237] + ml)) == [1, 0, 64] + ed + [12, 237] + ml;
    }
    hide HybridSignature.Encode;
  }

  /** Of an algorithm the ring does not know nothing is made, written, signed or accepted. */
  lemma UnsupportedEntries(s: Schemes, e: Entry, f: Randomness, m: Bytes, sig: Bytes)
    requires e.meta.algo !in {"ed25519", "mldsa65", "lamport", "hybrid_ed25519_mldsa65"}
    ensures Generate(s, e.meta.algo, f) == Err(UnsupportedAlgo) && PublicBytes(e) == []
    ensures EntrySign(s, e, m) == Err(UnsupportedAlgo) && EntryVerify(s, e, m, sig) == Err(UnsupportedAlgo)
  {
  }

  // ---- the ring ----

  function MaxOf(r: Ring, algo: string): int {
    if algo in r.maxVersion then r.maxVersion[algo] else 0
  }

  function Retire(e: Entry, now: int): Entry {
    e.(meta := e.meta.(retiredAt := Some(now), active := false))
  }

  function NewEntry(s: Schemes, r: Ring, algo: string, made: Entry, now: int): Entry
    requires MaxOf(r, algo) >= 0
  {
    var pub := PublicBytes(made.(meta := NO_META.(algo := algo)));
    var version := MaxOf(r, algo) + 1;
    made.(meta := KeyMeta(KeyId(s, algo, version, pub), algo, version, HexEncode(pub), now, None, true))
  }

  /** The keys with the previous active key of algo, if any, retired. */
  function RetirePrevious(r: Ring, algo: string, now: int): map<string, Entry> {
    if algo in r.active && r.active[algo] != "" && r.active[algo] in r.keys
    then r.keys[r.active[algo] := Retire(r.keys[r.active[algo]], now)]
    else r.keys
  }

  function Create(s: Schemes, r: Ring, algo: string, f: Randomness, now: int): Result<Ring, Error>
    requires MaxOf(r, algo) >= 0
  {
    var made := Generate(s, algo, f);
    if made.Err? then Err(made.error)
    else
      var e := NewEntry(s, r, algo, made.value, now);
      Ok(Ring(RetirePrevious(r, algo, now)[e.meta.id := e],
              r.active[algo := e.meta.id],
              r.maxVersion[algo := e.meta.version]))
  }

  function SignWithKey(s: Schemes, r: Ring, id: string, m: Bytes): Result<Bytes, Error> {
    if id !in r.keys then Err(UnknownKey) else EntrySign(s, r.keys[id], m)
  }

  function Sign(s: Schemes, r: Ring, algo: string, m: Bytes): Result<(Bytes, string), Error> {
    if algo !in r.active || r.active[algo] == "" then Err(NoActiveKey)
    else
      var sig := SignWithKey(s, r, r.active[algo], m);
      if sig.Err? then Err(sig.error) else Ok((sig.value, r.active[algo]))
  }

  function Verify(s: Schemes, r: Ring, id: string, m: Bytes, sig: Bytes): Result<bool, Error> {
    if id !in r.keys then Err(UnknownKey) else EntryVerify(s, r.keys[id], m, sig)
  }

  /** MigrateSignature locks the ring three times: to verify, to look the new key up, and to sign with it. */
  function MigrateAcross(
      s: Schemes, verifying: Ring, lookingUp: Ring, signing: Ring,
      oldId: string, m: Bytes, oldSig: Bytes, toAlgo: string)
      : Result<(Bytes, string), Error>
  {
    var v := Verify(s, verifying, oldId, m, oldSig);
    if v.Err? then Err(v.error)
    else if !v.value then Err(OldSignatureInvalid)
    else if toAlgo !in lookingUp.active || lookingUp.active[toAlgo] == "" then Err(NoActiveKey)
    else
      var sig := SignWithKey(s, signing, lookingUp.active[toAlgo], m);
      if sig.Err? then Err(sig.error) else Ok((sig.value, lookingUp.active[toAlgo]))
  }

  /** A migration with no creation falling into it. */
  function Migrate(s: Schemes, r: Ring, oldId: string, m: Bytes, oldSig: Bytes, toAlgo: string)
      : Result<(Bytes, string), Error>
  {
    MigrateAcross(s, r, r, r, oldId, m, oldSig, toAlgo)
  }

  // ---- the ring's invariant ----

  ghost predicate EntryOk(s: Schemes, r: Ring, id: string)
    requires id in r.keys
  {
    var e := r.keys[id];
    && Supported(e.meta.algo) && WellFormed(s, e)
    && 1 <= e.meta.version <= MaxOf(r, e.meta.algo)
    && e.meta.id == id == KeyId(s, e.meta.algo, e.meta.version, PublicBytes(e))
    && e.meta.publicKeyHex == HexEncode(PublicBytes(e))
    && (e.meta.active <==> e.meta.version == MaxOf(r, e.meta.algo))
    && (e.meta.retiredAt == None <==> e.meta.active)
  }

  ghost predicate HasVersion(r: Ring, algo: string, v: int) {
    exists id :: id in r.keys && r.keys[id].meta.algo == algo && r.keys[id].meta.version == v
  }

  predicate SameSlot(e: Entry, f: Entry) {
    e.meta.algo == f.meta.algo && e.meta.version == f.meta.version
  }

  ghost predicate ActiveOk(r: Ring, algo: string) {
    && (algo in r.active <==> algo in r.maxVersion)
    && (algo in r.maxVersion ==>
          && r.maxVersion[algo] >= 1
          && r.active[algo] != "" && r.active[algo] in r.keys
          && r.keys[r.active[algo]].meta.algo == algo
          && r.keys[r.active[algo]].meta.version == r.maxVersion[algo])
  }

  /**
   Versions per algorithm are exactly 1..max, one key each; exactly the highest is active and the
   others are retired; identifiers name algorithm, version and key.
   */
  ghost predicate Inv(s: Schemes, r: Ring) {
    && (forall id :: id in r.keys ==> EntryOk(s, r, id))
    && (forall algo, v :: 1 <= v <= MaxOf(r, algo) ==> HasVersion(r, algo, v))
    && (forall i, j :: i in r.keys && j in r.keys && SameSlot(r.keys[i], r.keys[j]) ==> i == j)
    && (forall algo :: ActiveOk(r, algo))
  }

  lemma EmptyInv(s: Schemes)
    ensures Inv(s, EMPTY)
  {
  }

  predicate Lacks(s: string, c: char) {
    forall i :: 0 <= i < |s| ==> s[i] != c
  }

  /** A string splits at its first separator in only one way. */
  lemma {:induction false} SplitUnique(a: string, b: string, a': string, b': string, c: char)
    requires Lacks(a, c) && Lacks(a', c) && a + [c] + b == a' + [c] + b'
    ensures a == a' && b == b'
  {
    var s := a + [c] + b;
    if a == [] || a' == [] {
      assert s[0] == c && s == a' + [c] + b';
      assert a == [] ==> s[1..] == b;
      assert a' == [] ==> s[1..] == b';
    } else {
      assert a[0] == s[0] == a'[0];
      assert s[1..] == a[1..] + [c] + b == a'[1..] + [c] + b';
      SplitUnique(a[1..], b, a'[1..], b', c);
    }
  }

  lemma AlgoLacksColon(algo: string)
    requires Supported(algo)
    ensures Lacks(algo, ':')
  {
  }

  /** An identifier determines its algorithm and version. */
  lemma KeyIdInjective(s: Schemes, algo: string, v: nat, pub: Bytes, algo': string, v': nat, pub': Bytes)
    requires Supported(algo) && Supported(algo') && KeyId(s, algo, v, pub) == KeyId(s, algo', v', pub')
    ensures algo == algo' && v == v'
  {
    hide *;
    AlgoLacksColon(algo);
    AlgoLacksColon(algo');
    KeyIdShape(s, algo, v, pub);
    KeyIdShape(s, algo', v', pub');
    SplitUnique(algo, IdTail(s, v, pub), algo', IdTail(s, v', pub'), ':');
    TailInjective(s, v, pub, v', pub');
  }

  function IdTail(s: Schemes, v: nat, pub: Bytes): string {
    "v" + Decimal(v) + ":" + HexEncode(s.sha(pub)[..4])
  }

  lemma KeyIdShape(s: Schemes, algo: string, v: nat, pub: Bytes)
    ensures KeyId(s, algo, v, pub) == algo + [':'] + IdTail(s, v, pub)
    ensures KeyId(s, algo, v, pub) != ""
  {
    hide Decimal, HexEncode;
  }

  lemma TailInjective(s: Schemes, v: nat, pub: Bytes, v': nat, pub': Bytes)
    requires IdTail(s, v, pub) == IdTail(s, v', pub')
    ensures v == v'
  {
    hide Decimal, HexEncode;
    DecimalChars(v);
    DecimalChars(v');
    var a, a' := "v" + Decimal(v), "v" + Decimal(v');
    SplitUnique(a, HexEncode(s.sha(pub)[..4]), a', HexEncode(s.sha(pub')[..4]), ':');
    assert Decimal(v) == a[1..] && Decimal(v') == a'[1..];
    DecimalInjective(v, v');
  }

  lemma GenerateWellFormed(s: Schemes, algo: string, f: Randomness, meta: KeyMeta)
    requires Correct(s) && ValidRandomness(f) && meta.algo == algo
    ensures Generate(s, algo, f).Ok? <==> Supported(algo)
    ensures Generate(s, algo, f).Ok? ==> WellFormed(s, Generate(s, algo, f).value.(meta := meta))
    ensures Generate(s, algo, f).Err? ==> Generate(s, algo, f).error == UnsupportedAlgo
  {
    hide Lamport.PublicOf;
  }

  /** The new identifier is not on the ring: identifiers never collide. */
  lemma FreshId(s: Schemes, r: Ring, algo: string, pub: Bytes)
    requires Inv(s, r) && Supported(algo) && MaxOf(r, algo) >= 0
    ensures KeyId(s, algo, MaxOf(r, algo) + 1, pub) !in r.keys
  {
    hide KeyId, WellFormed, PublicBytes, HexEncode, Supported;
    var id := KeyId(s, algo, MaxOf(r, algo) + 1, pub);
    if id in r.keys {
      assert EntryOk(s, r, id);
      var e := r.keys[id];
      assert e.meta.version >= 1;
      KeyIdInjective(s, algo, MaxOf(r, algo) + 1, pub, e.meta.algo, e.meta.version, PublicBytes(e));
    }
  }

  lemma MaxNonNegative(s: Schemes, r: Ring, algo: string)
    requires Inv(s, r)
    ensures MaxOf(r, algo) >= 0
  {
    assert ActiveOk(r, algo);
  }

  lemma RetireKeeps(s: Schemes, e: Entry, now: int)
    ensures WellFormed(s, Retire(e, now)) == WellFormed(s, e)
    ensures PublicBytes(Retire(e, now)) == PublicBytes(e)
  {
    hide Lamport.PublicOf, Lamport.Flatten, Be32;
  }

  /** What a creation does to the ring, in terms of the one key it adds and the one it retires. */
  ghost predicate Created(s: Schemes, r: Ring, t: Ring, algo: string, id: string, now: int) {
    && id !in r.keys && id in t.keys && t.keys.Keys == r.keys.Keys + {id}
    && t.active == r.active[algo := id] && t.maxVersion == r.maxVersion[algo := MaxOf(r, algo) + 1]
    && id != "" && Supported(algo) && MaxOf(r, algo) >= 0
    && var e := t.keys[id];
       && WellFormed(s, e) && e.meta.algo == algo && e.meta.version == MaxOf(r, algo) + 1
       && e.meta.id == id == KeyId(s, algo, MaxOf(r, algo) + 1, PublicBytes(e))
       && e.meta.publicKeyHex == HexEncode(PublicBytes(e)) && e.meta.active && e.meta.retiredAt == None
       && forall k :: k in r.keys ==>
            t.keys[k] == if algo in r.active && k == r.active[algo] then Retire(r.keys[k], now) else r.keys[k]
  }

  lemma CreateIsCreated(s: Schemes, r: Ring, algo: string, f: Randomness, now: int)
    requires Correct(s) && Inv(s, r) && ValidRandomness(f) && MaxOf(r, algo) >= 0
    ensures Create(s, r, algo, f, now).Ok? <==> Supported(algo)
    ensures Create(s, r, algo, f, now).Ok? ==>
              var t := Create(s, r, algo, f, now).value;
              algo in t.active && Created(s, r, t, algo, t.active[algo], now)
  {
    hide KeyId, Generate, WellFormed, PublicBytes, HexEncode, Supported, Correct, Inv;
    var blank := NO_META.(algo := algo);
    GenerateWellFormed(s, algo, f, blank);
    if Supported(algo) {
      var made := Generate(s, algo, f).value;
      var e := NewEntry(s, r, algo, made, now);
      MetaIrrelevant(s, made, blank, e.meta);
      FreshId(s, r, algo, PublicBytes(made.(meta := blank)));
      KeyIdShape(s, algo, MaxOf(r, algo) + 1, PublicBytes(made.(meta := blank)));
      ActiveInKeys(s, r, algo);
      var t := Create(s, r, algo, f, now).value;
      assert t.keys.Keys == r.keys.Keys + {e.meta.id};
    }
  }

  lemma ActiveInKeys(s: Schemes, r: Ring, algo: string)
    requires Inv(s, r)
    ensures algo in r.active ==> r.active[algo] != "" && r.active[algo] in r.keys
  {
    assert ActiveOk(r, algo);
  }

  lemma MetaIrrelevant(s: Schemes, e: Entry, m: KeyMeta, m': KeyMeta)
    requires m.algo == m'.algo
    ensures WellFormed(s, e.(meta := m)) == WellFormed(s, e.(meta := m'))
    ensures PublicBytes(e.(meta := m)) == PublicBytes(e.(meta := m'))
  {
    hide Lamport.PublicOf, Lamport.Flatten, Be32;
  }

  /** The active key of an algorithm is the one its entry says. */
  lemma ActiveIs(s: Schemes, r: Ring, id: string)
    requires Inv(s, r) && id in r.keys
    ensures var m := r.keys[id].meta;
            && m.id == id && 1 <= m.version <= MaxOf(r, m.algo) && m.algo in r.maxVersion
            && (m.active ==> m.algo in r.active && r.active[m.algo] == id)
  {
    hide WellFormed, KeyId, PublicBytes, HexEncode, Supported;
    assert EntryOk(s, r, id);
    var m := r.keys[id].meta;
    assert ActiveOk(r, m.algo);
    if m.active { assert SameSlot(r.keys[id], r.keys[r.active[m.algo]]); }
  }

  lemma CreatedEntries(s: Schemes, r: Ring, t: Ring, algo: string, id: string, now: int, k: string)
    requires Inv(s, r) && Created(s, r, t, algo, id, now) && k in t.keys
    ensures EntryOk(s, t, k)
  {
    hide KeyId, WellFormed, PublicBytes, HexEncode, Supported, Inv;
    MaxNonNegative(s, r, algo);
    if k != id {
      InvEntry(s, r, k);
      ActiveIs(s, r, k);
      ActiveIff(s, r, algo);
      RetireKeeps(s, r.keys[k], now);
    }
  }

  /** The active key of an algorithm has its highest version. */
  lemma ActiveIff(s: Schemes, r: Ring, algo: string)
    requires Inv(s, r)
    ensures algo in r.active <==> algo in r.maxVersion
    ensures algo in r.active ==>
              var id := r.active[algo];
              id in r.keys && r.keys[id].meta.algo == algo && r.keys[id].meta.version == MaxOf(r, algo)
  {
    assert ActiveOk(r, algo);
  }

  lemma CreatedVersions(s: Schemes, r: Ring, t: Ring, algo: string, id: string, now: int, a: string, v: int)
    requires Inv(s, r) && Created(s, r, t, algo, id, now) && 1 <= v <= MaxOf(t, a)
    ensures HasVersion(t, a, v)
  {
    hide KeyId, WellFormed, PublicBytes, HexEncode, Supported;
    if a == algo && v == MaxOf(r, algo) + 1 {
      assert t.keys[id].meta.algo == a && t.keys[id].meta.version == v;
    } else {
      assert HasVersion(r, a, v);
      var k :| k in r.keys && r.keys[k].meta.algo == a && r.keys[k].meta.version == v;
      assert k in t.keys && t.keys[k].meta.algo == a && t.keys[k].meta.version == v;
    }
  }

  /** A creation keeps the ring's invariant. */
  lemma CreatedInv(s: Schemes, r: Ring, t: Ring, algo: string, id: string, now: int)
    requires Inv(s, r) && Created(s, r, t, algo, id, now)
    ensures Inv(s, t)
  {
    hide Created, EntryOk, HasVersion, SameSlot, ActiveOk;
    forall k | k in t.keys ensures EntryOk(s, t, k) { CreatedEntries(s, r, t, algo, id, now, k); }
    forall a, v | 1 <= v <= MaxOf(t, a) ensures HasVersion(t, a, v) { CreatedVersions(s, r, t, algo, id, now, a, v); }
    forall i, j | i in t.keys && j in t.keys && SameSlot(t.keys[i], t.keys[j]) ensures i == j {
      CreatedUnique(s, r, t, algo, id, now, i, j);
    }
    forall a ensures ActiveOk(t, a) { CreatedActive(s, r, t, algo, id, now, a); }
  }

  lemma CreatedUnique(s: Schemes, r: Ring, t: Ring, algo: string, id: string, now: int, i: string, j: string)
    requires Inv(s, r) && Created(s, r, t, algo, id, now)
    requires i in t.keys && j in t.keys && SameSlot(t.keys[i], t.keys[j])
    ensures i == j
  {
    hide KeyId, WellFormed, PublicBytes, HexEncode, Supported;
    if i != id && j != id {
      assert SameSlot(r.keys[i], r.keys[j]);
    } else {
      if i in r.keys { SlotTaken(s, r, algo, i); }
      if j in r.keys { SlotTaken(s, r, algo, j); }
    }
  }

  lemma SlotTaken(s: Schemes, r: Ring, algo: string, k: string)
    requires Inv(s, r) && k in r.keys
    ensures r.keys[k].meta.algo == algo ==> r.keys[k].meta.version <= MaxOf(r, algo)
  {
    assert EntryOk(s, r, k);
  }

  lemma CreatedActive(s: Schemes, r: Ring, t: Ring, algo: string, id: string, now: int, a: string)
    requires Inv(s, r) && Created(s, r, t, algo, id, now)
    ensures ActiveOk(t, a)
  {
    hide KeyId, WellFormed, PublicBytes, HexEncode, Supported;
    MaxNonNegative(s, r, algo);
    assert ActiveOk(r, a);
  }

  // ---- runs and persistence ----

  datatype Creation = Creation(algo: string, randomness: Randomness, now: int)

  predicate ValidRun(cs: seq<Creation>) {
    forall i :: 0 <= i < |cs| ==> ValidRandomness(cs[i].randomness)
  }

  /** The ring after the first k creations or rotations; one for an unsupported algorithm changes nothing. */
  function After(s: Schemes, r: Ring, cs: seq<Creation>, k: nat): Ring
    requires k <= |cs|
  {
    if k == 0 then r else
      var before := After(s, r, cs, k - 1);
      var c := cs[k - 1];
      if MaxOf(before, c.algo) < 0 then before else
        var t := Create(s, before, c.algo, c.randomness, c.now);
        if t.Ok? then t.value else before
  }

  /** The same key material under the same identifier: only the lifecycle part of the metadata may differ. */
  predicate SameKey(e: Entry, f: Entry) {
    e.(meta := f.meta) == f && f.meta == e.meta.(active := f.meta.active, retiredAt := f.meta.retiredAt)
  }

  ghost predicate Extends(r: Ring, t: Ring) {
    forall id :: id in r.keys ==> id in t.keys && SameKey(r.keys[id], t.keys[id])
  }

  /**
   What a creation makes, field by field: the drawn private keys of its algorithm and no other, their
   public halves, the next version, the time; an identifier of algorithm, version and the first four bytes
   of the public key's hash; and the previous active key turned retired at that time.
   */
  lemma CreatedKeyIs(s: Schemes, r: Ring, algo: string, f: Randomness, now: int)
    requires Correct(s) && Inv(s, r) && ValidRandomness(f) && MaxOf(r, algo) >= 0 && Supported(algo)
    ensures Create(s, r, algo, f, now).Ok?
    ensures var t := Create(s, r, algo, f, now).value;
            algo in t.active && t.active[algo] in t.keys
            && var id, e := t.active[algo], t.keys[t.active[algo]];
               var ed, ml := algo == "ed25519" || algo == "hybrid_ed25519_mldsa65",
                             algo == "mldsa65" || algo == "hybrid_ed25519_mldsa65";
               var version := MaxOf(r, algo) + 1;
               && id == algo + ":v" + Decimal(version) + ":" + HexEncode(s.sha(PublicBytes(e))[..4])
               && e.meta == KeyMeta(id, algo, version, HexEncode(PublicBytes(e)), now, None, true)
               && e.edPriv == (if ed then Some(f.ed) else None)
               && e.edPub == (if ed then Some(s.edPublic(f.ed)) else None)
               && e.mlPriv == (if ml then Some(f.ml) else None)
               && e.mlPub == (if ml then Some(s.mlPublic(f.ml)) else None)
               && e.lamPriv == (if algo == "lamport" then Some(f.lam) else None)
               && e.lamPub == (if algo == "lamport" then Some(Lamport.PublicOf(s.sha, f.lam)) else None)
               && (algo in r.active && r.active[algo] in r.keys && r.active[algo] != id ==>
                     var prev := r.keys[r.active[algo]];
                     && r.active[algo] in t.keys
                     && t.keys[r.active[algo]] == prev.(meta := prev.meta.(active := false, retiredAt := Some(now))))
  {
    hide PublicBytes, HexEncode, Decimal, Correct, Inv, Lamport.PublicOf;
    ActiveInKeys(s, r, algo);
    var made := Generate(s, algo, f).value;
    SameAlgoSameBytes(made, NO_META.(algo := algo), NewEntry(s, r, algo, made, now).meta);
  }

  lemma SameAlgoSameBytes(e: Entry, m: KeyMeta, m': KeyMeta)
    requires m.algo == m'.algo
    ensures PublicBytes(e.(meta := m)) == PublicBytes(e.(meta := m'))
  {
    hide Lamport.Flatten, Be32;
  }

  lemma CreateExtends(s: Schemes, r: Ring, algo: string, f: Randomness, now: int)
    requires Correct(s) && Inv(s, r) && ValidRandomness(f) && MaxOf(r, algo) >= 0 && Create(s, r, algo, f, now).Ok?
    ensures Inv(s, Create(s, r, algo, f, now).value) && Extends(r, Create(s, r, algo, f, now).value)
  {
    hide Correct, Inv, Create, WellFormed, PublicBytes, KeyId, HexEncode, Supported;
    var t := Create(s, r, algo, f, now).value;
    CreateIsCreated(s, r, algo, f, now);
    CreatedInv(s, r, t, algo, t.active[algo], now);
  }

  /** In every state of every run: the invariant, and every key ever created is still there. */
  lemma {:induction false} RunKeeps(s: Schemes, r: Ring, cs: seq<Creation>, j: nat, k: nat)
    requires Correct(s) && Inv(s, r) && ValidRun(cs) && j <= k <= |cs|
    ensures Inv(s, After(s, r, cs, k)) && Extends(After(s, r, cs, j), After(s, r, cs, k))
    decreases k
  {
    hide Correct, Inv, Create, ValidRandomness, MaxOf;
    if k == 0 {
    } else if j == k {
      RunKeeps(s, r, cs, k - 1, k - 1);
      StepKeeps(s, After(s, r, cs, k - 1), cs[k - 1]);
    } else {
      RunKeeps(s, r, cs, j, k - 1);
      StepKeeps(s, After(s, r, cs, k - 1), cs[k - 1]);
    }
  }

  lemma StepKeeps(s: Schemes, before: Ring, c: Creation)
    requires Correct(s) && Inv(s, before) && ValidRandomness(c.randomness)
    ensures MaxOf(before, c.algo) >= 0
    ensures var t := Create(s, before, c.algo, c.randomness, c.now);
            t.Ok? ==> Inv(s, t.value) && Extends(before, t.value)
  {
    hide Correct, Inv, Create;
    MaxNonNegative(s, before, c.algo);
    if Create(s, before, c.algo, c.randomness, c.now).Ok? {
      CreateExtends(s, before, c.algo, c.randomness, c.now);
    }
  }

  lemma SameKeyVerifies(s: Schemes, e: Entry, f: Entry, m: Bytes, sig: Bytes)
    requires SameKey(e, f)
    ensures EntryVerify(s, f, m, sig) == EntryVerify(s, e, m, sig) && EntrySign(s, f, m) == EntrySign(s, e, m)
  {
    hide VerifyClassic, VerifyMLDSA, VerifyLamport, VerifyHybrid, HybridSignature.Encode, Lamport.Signature;
  }

  /**
   Persistence: the active key of state j, used to sign at any later state i (a rotation may fall
   between reading the identifier and signing), gives a signature that verifies under that
   identifier in every state k from then on.
   */
  lemma SignaturesPersist(s: Schemes, r: Ring, cs: seq<Creation>, j: nat, i: nat, k: nat, algo: string, m: Bytes)
    requires Correct(s) && Inv(s, r) && ValidRun(cs) && j <= i <= k <= |cs|
    requires algo in After(s, r, cs, j).active
    ensures var id := After(s, r, cs, j).active[algo];
            var sig := SignWithKey(s, After(s, r, cs, i), id, m);
            sig.Ok? ==> Verify(s, After(s, r, cs, k), id, m, sig.value) == Ok(true)
  {
    hide Correct, Inv, After, SameKey, WellFormed, EntrySign, EntryVerify;
    var id := After(s, r, cs, j).active[algo];
    RunKeeps(s, r, cs, j, i);
    RunKeeps(s, r, cs, i, k);
    RunKeeps(s, r, cs, j, j);
    ActiveInKeys(s, After(s, r, cs, j), algo);
    var e, f := After(s, r, cs, i).keys[id], After(s, r, cs, k).keys[id];
    InvEntry(s, After(s, r, cs, i), id);
    SameKeyVerifies(s, e, f, m, if EntrySign(s, e, m).Ok? then EntrySign(s, e, m).value else []);
    if EntrySign(s, e, m).Ok? { EntrySignVerifies(s, e, m); }
  }

  lemma InvEntry(s: Schemes, r: Ring, id: string)
    requires Inv(s, r) && id in r.keys
    ensures EntryOk(s, r, id) && WellFormed(s, r.keys[id])
  {
    assert EntryOk(s, r, id);
  }

  /** Sign itself: what it returns verifies, under an identifier of the requested algorithm's highest version. */
  lemma SignReturnsActive(s: Schemes, r: Ring, algo: string, m: Bytes)
    requires Correct(s) && Inv(s, r) && Sign(s, r, algo, m).Ok?
    ensures var (sig, id) := Sign(s, r, algo, m).value;
            && Verify(s, r, id, m, sig) == Ok(true)
            && r.keys[id].meta.algo == algo && r.keys[id].meta.version == MaxOf(r, algo) && r.keys[id].meta.active
  {
    hide Correct, WellFormed, EntrySign, EntryVerify, PublicBytes, KeyId;
    assert ActiveOk(r, algo);
    InvEntry(s, r, r.active[algo]);
    EntrySignVerifies(s, r.keys[r.active[algo]], m);
  }

  /**
   Only a verifying old signature is migrated; whatever creations fall between the steps of a migration
   or after it, both signatures verify from then on, the new one under a key of the requested algorithm
   that was its highest, active version when it was looked up.
   */
  lemma MigrationVerifies(
      s: Schemes, r: Ring, cs: seq<Creation>, j: nat, i: nat, k: nat, l: nat,
      oldId: string, m: Bytes, oldSig: Bytes, toAlgo: string)
    requires Correct(s) && Inv(s, r) && ValidRun(cs) && j <= i <= k <= l <= |cs|
    ensures var verifying, lookingUp := After(s, r, cs, j), After(s, r, cs, i);
            var migrated := MigrateAcross(s, verifying, lookingUp, After(s, r, cs, k), oldId, m, oldSig, toAlgo);
            migrated.Ok? ==>
              && Verify(s, verifying, oldId, m, oldSig) == Ok(true)
              && Verify(s, After(s, r, cs, l), oldId, m, oldSig) == Ok(true)
              && var (sig, id) := migrated.value;
                 && Verify(s, After(s, r, cs, l), id, m, sig) == Ok(true)
                 && id in lookingUp.keys && lookingUp.keys[id].meta.active
                 && lookingUp.keys[id].meta.algo == toAlgo
                 && lookingUp.keys[id].meta.version == MaxOf(lookingUp, toAlgo)
  {
    hide Correct, Inv, After, SignWithKey, Verify, ActiveOk, MaxOf, ValidRun;
    var lookingUp := After(s, r, cs, i);
    if toAlgo in lookingUp.active {
      SignaturesPersist(s, r, cs, i, k, l, toAlgo, m);
      RunKeeps(s, r, cs, i, i);
      ActiveIsHighest(s, lookingUp, toAlgo);
    }
    if Verify(s, After(s, r, cs, j), oldId, m, oldSig) == Ok(true) {
      VerificationPersists(s, r, cs, j, l, oldId, m, oldSig);
    }
  }

  lemma ActiveIsHighest(s: Schemes, r: Ring, algo: string)
    requires Inv(s, r) && algo in r.active
    ensures r.active[algo] in r.keys
    ensures var meta := r.keys[r.active[algo]].meta;
            meta.algo == algo && meta.version == MaxOf(r, algo) && meta.active
  {
    hide WellFormed, PublicBytes, KeyId;
    assert ActiveOk(r, algo);
    InvEntry(s, r, r.active[algo]);
  }

  /** What verifies once verifies in every later state. */
  lemma VerificationPersists(s: Schemes, r: Ring, cs: seq<Creation>, j: nat, k: nat, id: string, m: Bytes, sig: Bytes)
    requires Correct(s) && Inv(s, r) && ValidRun(cs) && j <= k <= |cs|
    requires Verify(s, After(s, r, cs, j), id, m, sig) == Ok(true)
    ensures Verify(s, After(s, r, cs, k), id, m, sig) == Ok(true)
  {
    hide Correct, Inv, After, SameKey, EntryVerify, ValidRun;
    RunKeeps(s, r, cs, j, k);
    SameKeyVerifies(s, After(s, r, cs, j).keys[id], After(s, r, cs, k).keys[id], m, sig);
  }

  // ---- snapshots ----

  datatype KeyMaterial = KeyMaterial(meta: KeyMeta, privateHex: string, hybridPqHex: string)

  datatype FullDoc = FullDoc(version: int, keys: seq<KeyMaterial>)

  function PublicPart(e: Entry): Entry {
    e.(edPriv := None, mlPriv := None, lamPriv := None)
  }

  /** hydratePublicOnly: rebuild an entry's public material from its canonical bytes. */
  function HydratePublic(meta: KeyMeta, b: Bytes): Result<Entry, Error> {
    var blank := Entry(meta, None, None, None, None, None, None);
    if meta.algo == ED25519 then
      if |b| != ED_PUBLIC then Err(InvalidKeyLength) else Ok(blank.(edPub := Some(b)))
    else if meta.algo == MLDSA65 then
      if |b| != ML_PUBLIC then Err(InvalidKeyLength) else Ok(blank.(mlPub := Some(b)))
    else if meta.algo == LAMPORT then
      if |b| != Lamport.KEY_SIZE then Err(InvalidKeyLength) else Ok(blank.(lamPub := Some(Lamport.Unflatten(b, 256))))
    else if meta.algo == HYBRID then HydrateHybrid(blank, b)
    else Err(UnsupportedAlgo)
  }

  function HydrateHybrid(blank: Entry, b: Bytes): Result<Entry, Error> {
    if |b| < 4 then Err(InvalidKeyLength)
    else
      var n := ReadBe32(b);
      if 4 + n > |b| then Err(InvalidKeyLength)
      else if n != ED_PUBLIC then Err(InvalidKeyLength)
      else if |b| - 4 - n != ML_PUBLIC then Err(InvalidKeyLength)
      else Ok(blank.(edPub := Some(b[4..4 + n]), mlPub := Some(b[4 + n..])))
  }

  function ReadBe32(b: Bytes): nat
    requires |b| >= 4
  {
    var w: nat, x: nat, y: nat, z: nat := b[0], b[1], b[2], b[3];
    w * 0x100_0000 + x * 0x1_0000 + y * 256 + z
  }

  /** privateHex: the private half, and for a hybrid key its second half. */
  function PrivateHex(e: Entry): (string, string) {
    if e.meta.algo == ED25519 then (if e.edPriv.None? then ("", "") else (HexEncode(e.edPriv.value), ""))
    else if e.meta.algo == MLDSA65 then (if e.mlPriv.None? then ("", "") else (HexEncode(e.mlPriv.value), ""))
    else if e.meta.algo == LAMPORT then
      (if e.lamPriv.None? then ("", "") else (HexEncode(Lamport.Flatten(e.lamPriv.value)), ""))
    else if e.edPriv.None? || e.mlPriv.None? then ("", "")
    else (HexEncode(e.edPriv.value), HexEncode(e.mlPriv.value))
  }

  function HydratePrivate(e: Entry, priv: Bytes, hybridPq: Bytes): Result<Entry, Error> {
    if e.meta.algo == ED25519 then
      if |priv| != ED_PRIVATE then Err(InvalidKeyLength) else Ok(e.(edPriv := Some(priv)))
    else if e.meta.algo == MLDSA65 then
      if |priv| != ML_PRIVATE then Err(InvalidKeyLength) else Ok(e.(mlPriv := Some(priv)))
    else if e.meta.algo == LAMPORT then
      if |priv| != Lamport.KEY_SIZE then Err(InvalidKeyLength)
      else Ok(e.(lamPriv := Some(Lamport.Unflatten(priv, 256))))
    else if e.meta.algo == HYBRID then
      if |priv| != ED_PRIVATE || |hybridPq| != ML_PRIVATE then Err(InvalidKeyLength)
      else Ok(e.(edPriv := Some(priv), mlPriv := Some(hybridPq)))
    else Err(UnsupportedAlgo)
  }

  function LoadPublicEntry(m: KeyMeta): Result<Entry, Error> {
    var b := HexDecode(m.publicKeyHex);
    if b.None? then Err(BadHex) else HydratePublic(m, b.value)
  }

  function LoadFullEntry(km: KeyMaterial): Result<Entry, Error> {
    var e := LoadPublicEntry(km.meta);
    if e.Err? || km.privateHex == "" then e
    else
      var priv := HexDecode(km.privateHex);
      var pq := if km.hybridPqHex == "" then Some([]) else HexDecode(km.hybridPqHex);
      if priv.None? || pq.None? then Err(BadHex) else HydratePrivate(e.value, priv.value, pq.value)
  }

  lemma HybridSplit(blank: Entry, ed: Bytes, ml: Bytes)
    requires |ed| == ED_PUBLIC && |ml| == ML_PUBLIC
    ensures HydrateHybrid(blank, Be32(|ed|) + ed + ml) == Ok(blank.(edPub := Some(ed), mlPub := Some(ml)))
  {
    var b := Be32(|ed|) + ed + ml;
    assert Be32(32) == [0, 0, 0, 32];
    assert b[0] == 0 && b[1] == 0 && b[2] == 0 && b[3] == 32;
    assert b[4..36] == ed && b[36..] == ml;
  }

  /** Public bytes hydrate back to exactly the public material. */
  lemma PublicRoundTrip(s: Schemes, e: Entry)
    requires WellFormed(s, e) && e.meta.publicKeyHex == HexEncode(PublicBytes(e))
    ensures LoadPublicEntry(e.meta) == Ok(PublicPart(e))
  {
    hide HexEncode, HexDecode, HydrateHybrid, Lamport.PublicOf, Lamport.Flatten, Lamport.Unflatten;
    DecodeEncode(PublicBytes(e));
    if e.meta.algo == LAMPORT {
      Lamport.UnflattenFlatten(e.lamPub.value);
    } else if e.meta.algo == HYBRID {
      HybridSplit(Entry(e.meta, None, None, None, None, None, None), e.edPub.value, e.mlPub.value);
    }
  }

  function MaterialOf(e: Entry): KeyMaterial {
    KeyMaterial(e.meta, PrivateHex(e).0, PrivateHex(e).1)
  }

  /** A key's full material loads back to exactly the entry, private half included or absent. */
  lemma FullRoundTrip(s: Schemes, e: Entry)
    requires WellFormed(s, e) && e.meta.publicKeyHex == HexEncode(PublicBytes(e))
    ensures LoadFullEntry(MaterialOf(e)) == Ok(e)
  {
    hide HexEncode, HexDecode, PublicBytes, LoadPublicEntry, Lamport.PublicOf, Lamport.Flatten, Lamport.Unflatten;
    PublicRoundTrip(s, e);
    if e.edPriv.Some? { DecodeEncode(e.edPriv.value); }
    if e.mlPriv.Some? { DecodeEncode(e.mlPriv.value); }
    if e.lamPriv.Some? {
      DecodeEncode(Lamport.Flatten(e.lamPriv.value));
      Lamport.UnflattenFlatten(e.lamPriv.value);
    }
  }

  /** A loader adding one entry: its key, the active identifier, and the version counter. */
  function Install(r: Ring, e: Entry): Ring {
    Ring(r.keys[e.meta.id := e],
         if e.meta.active then r.active[e.meta.algo := e.meta.id] else r.active,
         if e.meta.version > MaxOf(r, e.meta.algo) then r.maxVersion[e.meta.algo := e.meta.version] else r.maxVersion)
  }

  function InstallAll(es: seq<Entry>): Ring {
    if es == [] then EMPTY else Install(InstallAll(es[..|es| - 1]), es[|es| - 1])
  }

  function LoadPublic(ms: seq<KeyMeta>): Result<Ring, Error> {
    if ms == [] then Ok(EMPTY)
    else
      var front := LoadPublic(ms[..|ms| - 1]);
      if front.Err? then front
      else
        var e := LoadPublicEntry(ms[|ms| - 1]);
        if e.Err? then Err(e.error) else Ok(Install(front.value, e.value))
  }

  function LoadMaterials(kms: seq<KeyMaterial>): Result<Ring, Error> {
    if kms == [] then Ok(EMPTY)
    else
      var front := LoadMaterials(kms[..|kms| - 1]);
      if front.Err? then front
      else
        var e := LoadFullEntry(kms[|kms| - 1]);
        if e.Err? then Err(e.error) else Ok(Install(front.value, e.value))
  }

  function LoadFull(doc: FullDoc): Result<Ring, Error> {
    if doc.version != 1 then Err(UnsupportedSnapshot) else LoadMaterials(doc.keys)
  }

  /** Entries drawn from the ring, in any order. */
  ghost predicate Drawn(r: Ring, es: seq<Entry>) {
    forall i :: 0 <= i < |es| ==> es[i].meta.id in r.keys && r.keys[es[i].meta.id] == es[i]
  }

  ghost predicate Covers(r: Ring, es: seq<Entry>) {
    forall id :: id in r.keys ==> exists i :: 0 <= i < |es| && es[i].meta.id == id
  }

  /** What loading part of a ring has rebuilt: nothing but the ring's own keys, active identifiers and counters. */
  ghost predicate Rebuilt(r: Ring, t: Ring, es: seq<Entry>) {
    && (forall id :: id in t.keys ==> id in r.keys && t.keys[id] == r.keys[id])
    && (forall a :: a in t.active ==> a in r.active && t.active[a] == r.active[a])
    && (forall a :: a in t.maxVersion ==> a in r.maxVersion && 1 <= t.maxVersion[a] <= r.maxVersion[a])
    && (forall i :: 0 <= i < |es| ==> Present(t, es[i]))
  }

  predicate Present(t: Ring, e: Entry) {
    && e.meta.id in t.keys
    && (e.meta.active ==> e.meta.algo in t.active)
    && e.meta.version <= MaxOf(t, e.meta.algo)
  }

  /** Installing one of the ring's own entries stays within the ring and loses nothing. */
  lemma InstallStep(r: Ring, t: Ring, e: Entry, es: seq<Entry>)
    requires Rebuilt(r, t, es) && e.meta.id in r.keys && r.keys[e.meta.id] == e
    requires 1 <= e.meta.version <= MaxOf(r, e.meta.algo) && e.meta.algo in r.maxVersion
    requires e.meta.active ==> e.meta.algo in r.active && r.active[e.meta.algo] == e.meta.id
    ensures Rebuilt(r, Install(t, e), es) && Present(Install(t, e), e)
  {
    var u := Install(t, e);
    forall i | 0 <= i < |es| ensures Present(u, es[i]) {
      assert Present(t, es[i]);
    }
  }

  lemma {:induction false} InstallRebuilds(s: Schemes, r: Ring, es: seq<Entry>)
    requires Inv(s, r) && Drawn(r, es)
    ensures Rebuilt(r, InstallAll(es), es)
  {
    hide *;
    if es == [] {
      RebuiltNil(r);
    } else {
      InstallAllStep(es);
      DrawnAt(r, es, |es| - 1);
      var front, e := es[..|es| - 1], es[|es| - 1];
      InstallRebuilds(s, r, front);
      ActiveIs(s, r, e.meta.id);
      InstallStep(r, InstallAll(front), e, front);
      RebuiltSnoc(r, Install(InstallAll(front), e), front, e);
      assert es == front + [e];
    }
  }

  lemma RebuiltNil(r: Ring)
    ensures Rebuilt(r, InstallAll([]), [])
  {
  }

  lemma InstallAllStep(es: seq<Entry>)
    requires es != []
    ensures InstallAll(es) == Install(InstallAll(es[..|es| - 1]), es[|es| - 1])
  {
  }

  lemma DrawnAt(r: Ring, es: seq<Entry>, i: nat)
    requires Drawn(r, es) && i < |es|
    ensures es[i].meta.id in r.keys && r.keys[es[i].meta.id] == es[i] && Drawn(r, es[..i])
  {
  }

  lemma RebuiltSnoc(r: Ring, t: Ring, front: seq<Entry>, e: Entry)
    requires Rebuilt(r, t, front) && Present(t, e)
    ensures Rebuilt(r, t, front + [e])
  {
    hide Present;
  }

  /** Loading every entry of a ring, in whatever order, rebuilds the ring: keys, active identifiers and counters. */
  lemma InstallAllRebuildsRing(s: Schemes, r: Ring, es: seq<Entry>)
    requires Inv(s, r) && Drawn(r, es) && Covers(r, es)
    ensures InstallAll(es) == r
  {
    var t := InstallAll(es);
    hide InstallAll, Inv;
    InstallRebuilds(s, r, es);
    forall id | id in r.keys ensures Present(t, r.keys[id]) {
      var i :| 0 <= i < |es| && es[i].meta.id == id;
      assert Present(t, es[i]);
    }
    assert t.keys == r.keys;
    forall a ensures a in r.maxVersion ==> a in t.active && a in t.maxVersion && t.maxVersion[a] == r.maxVersion[a] {
      if a in r.maxVersion { ActivePresent(s, r, t, a); }
    }
    forall a ensures a in r.active <==> a in r.maxVersion { ActiveIff(s, r, a); }
    assert t.active == r.active;
    assert t.maxVersion == r.maxVersion;
  }

  lemma ActivePresent(s: Schemes, r: Ring, t: Ring, a: string)
    requires Inv(s, r) && a in r.maxVersion
    requires forall id :: id in r.keys ==> Present(t, r.keys[id])
    requires forall b :: b in t.maxVersion ==> b in r.maxVersion && 1 <= t.maxVersion[b] <= r.maxVersion[b]
    ensures a in t.active && a in t.maxVersion && t.maxVersion[a] == r.maxVersion[a]
  {
    hide WellFormed, KeyId, PublicBytes, HexEncode, Supported;
    assert ActiveOk(r, a);
    var id := r.active[a];
    assert EntryOk(s, r, id);
    assert Present(t, r.keys[id]);
  }

  function Metas(es: seq<Entry>): (ms: seq<KeyMeta>)
    ensures |ms| == |es| && forall i :: 0 <= i < |es| ==> ms[i] == es[i].meta
  {
    seq(|es|, i requires 0 <= i < |es| => es[i].meta)
  }

  function Materials(es: seq<Entry>): (kms: seq<KeyMaterial>)
    ensures |kms| == |es| && forall i :: 0 <= i < |es| ==> kms[i] == MaterialOf(es[i])
  {
    seq(|es|, i requires 0 <= i < |es| => MaterialOf(es[i]))
  }

  ghost predicate Loadable(s: Schemes, es: seq<Entry>) {
    forall i :: 0 <= i < |es| ==> WellFormed(s, es[i]) && es[i].meta.publicKeyHex == HexEncode(PublicBytes(es[i]))
  }

  lemma {:induction false} LoadMaterialsInstalls(s: Schemes, es: seq<Entry>)
    requires Loadable(s, es)
    ensures LoadMaterials(Materials(es)) == Ok(InstallAll(es))
  {
    hide WellFormed, HexEncode, PublicBytes, MaterialOf, LoadFullEntry, Install;
    if es != [] {
      var front, e := es[..|es| - 1], es[|es| - 1];
      LoadMaterialsInstalls(s, front);
      FullRoundTrip(s, e);
      assert Materials(es)[..|es| - 1] == Materials(front);
    }
  }

  function PublicParts(es: seq<Entry>): (ps: seq<Entry>)
    ensures |ps| == |es| && forall i :: 0 <= i < |es| ==> ps[i] == PublicPart(es[i])
  {
    seq(|es|, i requires 0 <= i < |es| => PublicPart(es[i]))
  }

  lemma {:induction false} LoadPublicInstalls(s: Schemes, es: seq<Entry>)
    requires Loadable(s, es)
    ensures LoadPublic(Metas(es)) == Ok(InstallAll(PublicParts(es)))
  {
    hide WellFormed, HexEncode, PublicBytes, LoadPublicEntry, PublicPart, Install;
    if es != [] {
      var front, e := es[..|es| - 1], es[|es| - 1];
      LoadPublicInstalls(s, front);
      PublicRoundTrip(s, e);
      assert Metas(es)[..|es| - 1] == Metas(front);
      assert PublicParts(es)[..|es| - 1] == PublicParts(front);
    }
  }

  lemma DrawnLoadable(s: Schemes, r: Ring, es: seq<Entry>)
    requires Inv(s, r) && Drawn(r, es)
    ensures Loadable(s, es)
  {
    hide WellFormed, HexEncode, PublicBytes, KeyId, Supported;
    forall i | 0 <= i < |es| ensures WellFormed(s, es[i]) && es[i].meta.publicKeyHex == HexEncode(PublicBytes(es[i])) {
      assert EntryOk(s, r, es[i].meta.id);
    }
  }

  /** A full snapshot restores the ring exactly, so the restored ring signs and verifies identically. */
  lemma FullSnapshotRoundTrip(s: Schemes, r: Ring, es: seq<Entry>)
    requires Inv(s, r) && Drawn(r, es) && Covers(r, es)
    ensures LoadFull(FullDoc(1, Materials(es))) == Ok(r)
  {
    hide Inv, Drawn, Covers, LoadMaterials, InstallAll, Loadable;
    DrawnLoadable(s, r, es);
    LoadMaterialsInstalls(s, es);
    InstallAllRebuildsRing(s, r, es);
  }

  /** The ring without any private key. */
  function VerifyOnly(r: Ring): Ring {
    r.(keys := map id | id in r.keys :: PublicPart(r.keys[id]))
  }

  lemma PublicPartKeeps(s: Schemes, e: Entry)
    ensures WellFormed(s, e) ==> WellFormed(s, PublicPart(e))
    ensures PublicBytes(PublicPart(e)) == PublicBytes(e)
  {
    hide Lamport.PublicOf, Lamport.Flatten, Be32;
  }

  lemma VerifyOnlyInv(s: Schemes, r: Ring)
    requires Inv(s, r)
    ensures Inv(s, VerifyOnly(r))
  {
    hide WellFormed, HexEncode, PublicBytes, KeyId, Supported;
    var t := VerifyOnly(r);
    forall id | id in t.keys ensures EntryOk(s, t, id) {
      assert EntryOk(s, r, id);
      PublicPartKeeps(s, r.keys[id]);
    }
    forall a, v | 1 <= v <= MaxOf(t, a) ensures HasVersion(t, a, v) {
      assert HasVersion(r, a, v);
      var id :| id in r.keys && r.keys[id].meta.algo == a && r.keys[id].meta.version == v;
      assert id in t.keys && t.keys[id].meta.algo == a && t.keys[id].meta.version == v;
    }
    forall i, j | i in t.keys && j in t.keys && SameSlot(t.keys[i], t.keys[j]) ensures i == j {
      assert SameSlot(r.keys[i], r.keys[j]);
    }
    forall a ensures ActiveOk(t, a) { assert ActiveOk(r, a); }
  }

  /** A public snapshot restores the ring without its private keys. */
  lemma PublicSnapshotRoundTrip(s: Schemes, r: Ring, es: seq<Entry>)
    requires Inv(s, r) && Drawn(r, es) && Covers(r, es)
    ensures LoadPublic(Metas(es)) == Ok(VerifyOnly(r))
  {
    hide Inv, LoadPublic, InstallAll, Loadable;
    DrawnLoadable(s, r, es);
    LoadPublicInstalls(s, es);
    VerifyOnlyInv(s, r);
    forall id | id in VerifyOnly(r).keys ensures exists i :: 0 <= i < |es| && PublicParts(es)[i].meta.id == id {
      var i :| 0 <= i < |es| && es[i].meta.id == id;
      assert PublicParts(es)[i].meta.id == id;
    }
    InstallAllRebuildsRing(s, VerifyOnly(r), PublicParts(es));
  }

  /** That ring verifies exactly as the original does and can sign nothing. */
  lemma VerifyOnlyBehaviour(s: Schemes, r: Ring, id: string, algo: string, m: Bytes, sig: Bytes)
    requires Inv(s, r)
    ensures Verify(s, VerifyOnly(r), id, m, sig) == Verify(s, r, id, m, sig)
    ensures SignWithKey(s, VerifyOnly(r), id, m) == Err(if id in r.keys then PrivateKeyMissing else UnknownKey)
    ensures Sign(s, VerifyOnly(r), algo, m) == Err(if algo in r.active then PrivateKeyMissing else NoActiveKey)
  {
    hide WellFormed, HexEncode, PublicBytes, KeyId, VerifyClassic, VerifyMLDSA, VerifyLamport, VerifyHybrid;
    if id in r.keys { assert EntryOk(s, r, id); }
    assert ActiveOk(r, algo);
    if algo in r.active { assert EntryOk(s, r, r.active[algo]); }
  }
}
