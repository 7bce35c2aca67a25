/** The Lamport one-time signature: key layout, signing and verification over 256 digest bits. */
module Lamport {
  import opened Digests
  import opened Numerals
  import opened Words
  import opened Wrappers

  const BITS := 256
  const KEY_SIZE := 16384
  const SIGNATURE_SIZE := 8192

  datatype Pair = Pair(zero: Digest, one: Digest)

  /** 256 pairs of 32-byte strings: preimages in a private key, their digests in a public key. */
  type Key = k: seq<Pair> | |k| == BITS witness seq(BITS, _ => Pair(seq(32, _ => 0), seq(32, _ => 0)))

  datatype Error = InvalidKeyLength | InvalidSignature

  // ---- specification ----

  function Half(p: Pair, bit: bool): Digest {
    if bit then p.one else p.zero
  }

  function Flatten(ps: seq<Pair>): (b: Bytes)
    ensures |b| == 64 * |ps|
  {
    if ps == [] then [] else Flatten(ps[..|ps| - 1]) + ps[|ps| - 1].zero + ps[|ps| - 1].one
  }

  function PairAt(b: Bytes, i: nat): Pair
    requires 64 * (i + 1) <= |b|
  {
    Pair(b[64 * i..64 * i + 32], b[64 * i + 32..64 * i + 64])
  }

  function Unflatten(b: Bytes, n: nat): (ps: seq<Pair>)
    requires |b| == 64 * n
    ensures |ps| == n
  {
    seq(n, i requires 0 <= i < n => PairAt(b, i))
  }

  /** Bit i of the digest, most significant bit of each byte first. */
  function DigestBit(d: Digest, i: nat): bool
    requires i < BITS
  {
    TestBit(d[i / 8], 7 - i % 8)
  }

  function HashPair(sha: Sha256, p: Pair): Pair {
    Pair(sha(p.zero), sha(p.one))
  }

  function PublicOf(sha: Sha256, priv: Key): (pub: Key)
    ensures forall i :: 0 <= i < BITS ==> pub[i] == HashPair(sha, priv[i])
  {
    var pairs := seq(BITS, i requires 0 <= i < BITS => HashPair(sha, priv[i]));
    assert |pairs| == BITS;
    pairs
  }

  /** The revealed halves for the first n digest bits. */
  function Reveal(priv: Key, d: Digest, n: nat): (sig: Bytes)
    requires n <= BITS
    ensures |sig| == 32 * n
  {
    if n == 0 then [] else Reveal(priv, d, n - 1) + Half(priv[n - 1], DigestBit(d, n - 1))
  }

  function Signature(sha: Sha256, priv: Key, message: Bytes): Bytes {
    Reveal(priv, sha(message), BITS)
  }

  function Chunk(sig: Bytes, i: nat): Digest
    requires 32 * (i + 1) <= |sig|
  {
    sig[32 * i..32 * (i + 1)]
  }

  /** Every revealed chunk hashes to the public half its digest bit selects. */
  predicate Verifies(sha: Sha256, pub: Key, message: Bytes, sig: Bytes) {
    && |sig| == SIGNATURE_SIZE
    && forall i :: 0 <= i < BITS ==> ChunkVerifies(sha, pub, sha(message), sig, i)
  }

  predicate ChunkVerifies(sha: Sha256, pub: Key, d: Digest, sig: Bytes, i: nat)
    requires i < BITS && |sig| == SIGNATURE_SIZE
  {
    sha(Chunk(sig, i)) == Half(pub[i], DigestBit(d, i))
  }

  // ---- layout round trips ----

  lemma {:induction false} FlattenAt(ps: seq<Pair>, i: nat)
    requires i < |ps|
    ensures PairAt(Flatten(ps), i) == ps[i]
  {
    var n := |ps|;
    if i < n - 1 {
      FlattenAt(ps[..n - 1], i);
      assert PairAt(Flatten(ps), i) == PairAt(Flatten(ps[..n - 1]), i);
    }
  }

  /**
   Verification in terms of bytes: chunk i must hash to the 32 bytes at 64 * i of the public key, or at
   64 * i + 32 when bit i of the digest, most significant first, is set.
   */
  lemma VerifiesIff(sha: Sha256, pub: Key, message: Bytes, sig: Bytes)
    ensures |Flatten(pub)| == KEY_SIZE
    ensures Verifies(sha, pub, message, sig) <==>
              && |sig| == SIGNATURE_SIZE
              && forall i :: 0 <= i < BITS ==>
                   var bit := sha(message)[i / 8] / Pow2(7 - i % 8) % 2;
                   sha(sig[32 * i..][..32]) == Flatten(pub)[64 * i + 32 * bit..][..32]
  {
    hide Flatten, ChunkVerifies, Pow2;
    if |sig| == SIGNATURE_SIZE {
      forall i | 0 <= i < BITS
        ensures var bit := sha(message)[i / 8] / Pow2(7 - i % 8) % 2;
                ChunkVerifies(sha, pub, sha(message), sig, i)
                <==> sha(sig[32 * i..][..32]) == Flatten(pub)[64 * i + 32 * bit..][..32]
      {
        ChunkVerifiesIff(sha, pub, sha(message), sig, i);
      }
    }
  }

  /** The half of pair i that a digest selects, as bytes of the key. */
  lemma SelectedHalf(key: Key, d: Digest, i: nat)
    requires i < BITS
    ensures |Flatten(key)| == KEY_SIZE
    ensures var bit := d[i / 8] / Pow2(7 - i % 8) % 2;
            Flatten(key)[64 * i + 32 * bit..][..32] == Half(key[i], DigestBit(d, i))
  {
    hide Flatten, Pow2;
    FlattenAt(key, i);
    var bit := d[i / 8] / Pow2(7 - i % 8) % 2;
    assert Flatten(key)[64 * i + 32 * bit..][..32] == Half(key[i], bit == 1);
  }

  lemma ChunkIs(sig: Bytes, i: nat)
    requires 32 * (i + 1) <= |sig|
    ensures sig[32 * i..][..32] == Chunk(sig, i)
  {
  }

  lemma ChunkVerifiesIff(sha: Sha256, pub: Key, d: Digest, sig: Bytes, i: nat)
    requires i < BITS && |sig| == SIGNATURE_SIZE && |Flatten(pub)| == KEY_SIZE
    ensures var bit := d[i / 8] / Pow2(7 - i % 8) % 2;
            ChunkVerifies(sha, pub, d, sig, i)
            <==> sha(sig[32 * i..][..32]) == Flatten(pub)[64 * i + 32 * bit..][..32]
  {
    hide Flatten, Pow2, DigestBit, Half, Chunk;
    SelectedHalf(pub, d, i);
    ChunkIs(sig, i);
  }

  /** Reading back a flattened key gives the key. */
  lemma UnflattenFlatten(ps: seq<Pair>)
    ensures Unflatten(Flatten(ps), |ps|) == ps
  {
    forall i | 0 <= i < |ps| ensures Unflatten(Flatten(ps), |ps|)[i] == ps[i] {
      FlattenAt(ps, i);
    }
  }

  /** Every byte string of the right size is the flattening of what is read from it. */
  lemma {:induction false} FlattenUnflatten(b: Bytes, n: nat)
    requires |b| == 64 * n
    ensures Flatten(Unflatten(b, n)) == b
  {
    if n > 0 {
      var front := b[..64 * (n - 1)];
      FlattenUnflatten(front, n - 1);
      UnflattenFront(b, n);
      assert b == front + PairAt(b, n - 1).zero + PairAt(b, n - 1).one;
    }
  }

  lemma UnflattenFront(b: Bytes, n: nat)
    requires n > 0 && |b| == 64 * n
    ensures Unflatten(b, n)[..n - 1] == Unflatten(b[..64 * (n - 1)], n - 1)
  {
    forall i | 0 <= i < n - 1 ensures PairAt(b, i) == PairAt(b[..64 * (n - 1)], i) {
    }
  }

  // ---- signatures ----

  lemma ChunkOfSum(front: Bytes, last: Digest, k: nat, i: nat)
    requires |front| == 32 * k && i <= k
    ensures Chunk(front + last, i) == if i < k then Chunk(front, i) else last
  {
  }

  lemma {:induction false} RevealAt(priv: Key, d: Digest, n: nat, i: nat)
    requires i < n <= BITS
    ensures Chunk(Reveal(priv, d, n), i) == Half(priv[i], DigestBit(d, i))
  {
    hide DigestBit, Chunk;
    ChunkOfSum(Reveal(priv, d, n - 1), Half(priv[n - 1], DigestBit(d, n - 1)), n - 1, i);
    if i < n - 1 { RevealAt(priv, d, n - 1, i); }
  }

  /** A signature in terms of bytes: chunk i is the 32 bytes of the private key that the digest's bit i selects. */
  lemma SignatureAt(sha: Sha256, priv: Key, message: Bytes, i: nat)
    requires i < BITS
    ensures |Flatten(priv)| == KEY_SIZE && |Signature(sha, priv, message)| == SIGNATURE_SIZE
    ensures var bit := sha(message)[i / 8] / Pow2(7 - i % 8) % 2;
            Signature(sha, priv, message)[32 * i..][..32] == Flatten(priv)[64 * i + 32 * bit..][..32]
  {
    hide Flatten, Pow2, Reveal, DigestBit, Half, Chunk;
    RevealAt(priv, sha(message), BITS, i);
    SelectedHalf(priv, sha(message), i);
    ChunkIs(Signature(sha, priv, message), i);
  }

  /** What a key signs, its public key verifies. */
  lemma SignedVerifies(sha: Sha256, priv: Key, message: Bytes)
    ensures Verifies(sha, PublicOf(sha, priv), message, Signature(sha, priv, message))
  {
    hide DigestBit, Reveal, Chunk;
    var d := sha(message);
    forall i | 0 <= i < BITS
      ensures ChunkVerifies(sha, PublicOf(sha, priv), d, Signature(sha, priv, message), i)
    {
      RevealAt(priv, d, BITS, i);
    }
  }

  /** Only the honest signature verifies for a message, unless a collision comes out. */
  lemma SignatureUnique(sha: Sha256, priv: Key, message: Bytes, sig: Bytes) returns (a: Bytes, b: Bytes)
    requires Verifies(sha, PublicOf(sha, priv), message, sig)
    ensures sig == Signature(sha, priv, message) || Collision(sha, a, b)
  {
    hide DigestBit, Reveal;
    a, b := [], [];
    var honest := Signature(sha, priv, message);
    if sig != honest {
      var k :| 0 <= k < SIGNATURE_SIZE && sig[k] != honest[k];
      var i := k / 32;
      RevealAt(priv, sha(message), BITS, i);
      assert ChunkVerifies(sha, PublicOf(sha, priv), sha(message), sig, i);
      a, b := Chunk(sig, i), Chunk(honest, i);
      assert a[k - 32 * i] != b[k - 32 * i];
    }
  }

  /** A number below 2^n is determined by its n low bits. */
  lemma {:induction false} BitsDetermine(x: nat, y: nat, n: nat)
    requires x < Pow2(n) && y < Pow2(n)
    requires forall k :: 0 <= k < n ==> TestBit(x, k) == TestBit(y, k)
    ensures x == y
  {
    if n > 0 {
      forall k | 0 <= k < n - 1 ensures TestBit(x / 2, k) == TestBit(y / 2, k) {
        HalveBit(x, k + 1);
        HalveBit(y, k + 1);
      }
      BitsDetermine(x / 2, y / 2, n - 1);
      LowBit(x);
      LowBit(y);
    }
  }

  lemma LowBit(x: nat)
    ensures TestBit(x, 0) == (x % 2 == 1)
  {
  }

  /** Different digests differ in a bit. */
  lemma DigestsDifferInABit(d: Digest, e: Digest) returns (i: nat)
    requires d != e
    ensures i < BITS && DigestBit(d, i) != DigestBit(e, i)
  {
    var j :| 0 <= j < 32 && d[j] != e[j];
    hide TestBit;
    if forall k :: 0 <= k < 8 ==> TestBit(d[j], k) == TestBit(e[j], k) {
      Pow2Values();
      BitsDetermine(d[j], e[j], 8);
    }
    var k :| 0 <= k < 8 && TestBit(d[j], k) != TestBit(e[j], k);
    i := 8 * j + (7 - k);
    assert i / 8 == j && 7 - i % 8 == k;
  }

  /** Why a key must sign once: valid signatures on two messages with different digests open both halves of a pair. */
  lemma TwoSignaturesOpenAPair(sha: Sha256, pub: Key, m: Bytes, sig: Bytes, m': Bytes, sig': Bytes) returns (i: nat)
    requires Verifies(sha, pub, m, sig) && Verifies(sha, pub, m', sig') && sha(m) != sha(m')
    ensures i < BITS
    ensures {sha(Chunk(sig, i)), sha(Chunk(sig', i))} == {pub[i].zero, pub[i].one}
  {
    i := DigestsDifferInABit(sha(m), sha(m'));
    hide DigestBit, Chunk;
    assert ChunkVerifies(sha, pub, sha(m), sig, i) && ChunkVerifies(sha, pub, sha(m'), sig', i);
  }

  /** Chunk by chunk the first signature's half where its digest has the wanted bit, else the second's. */
  function Splice(d: Digest, sig: Bytes, sig': Bytes, wanted: Digest, n: nat): (s: Bytes)
    requires n <= BITS && |sig| == |sig'| == SIGNATURE_SIZE
    ensures |s| == 32 * n
  {
    if n == 0 then []
    else
      Splice(d, sig, sig', wanted, n - 1)
      + (if DigestBit(d, n - 1) == DigestBit(wanted, n - 1) then Chunk(sig, n - 1) else Chunk(sig', n - 1))
  }

  lemma {:induction false} SpliceAt(d: Digest, sig: Bytes, sig': Bytes, wanted: Digest, n: nat, i: nat)
    requires i < n <= BITS && |sig| == |sig'| == SIGNATURE_SIZE
    ensures Chunk(Splice(d, sig, sig', wanted, n), i)
         == if DigestBit(d, i) == DigestBit(wanted, i) then Chunk(sig, i) else Chunk(sig', i)
  {
    hide DigestBit, Chunk;
    var front := Splice(d, sig, sig', wanted, n - 1);
    var last := if DigestBit(d, n - 1) == DigestBit(wanted, n - 1) then Chunk(sig, n - 1) else Chunk(sig', n - 1);
    ChunkOfSum(front, last, n - 1, i);
    if i < n - 1 { SpliceAt(d, sig, sig', wanted, n - 1, i); }
  }

  /**
   How a second signature breaks the scheme: from two accepted signatures, every message each of whose
   digest bits agrees with one of the two digests has an explicit signature, spliced from theirs, that
   verifies. The private key is not needed.
   */
  lemma SplicedVerifies(sha: Sha256, pub: Key, m: Bytes, sig: Bytes, m': Bytes, sig': Bytes, forged: Bytes)
    requires Verifies(sha, pub, m, sig) && Verifies(sha, pub, m', sig')
    requires forall i :: 0 <= i < BITS ==>
               || DigestBit(sha(forged), i) == DigestBit(sha(m), i)
               || DigestBit(sha(forged), i) == DigestBit(sha(m'), i)
    ensures Verifies(sha, pub, forged, Splice(sha(m), sig, sig', sha(forged), BITS))
  {
    hide DigestBit, Chunk, Splice;
    var wanted := sha(forged);
    forall i | 0 <= i < BITS
      ensures ChunkVerifies(sha, pub, wanted, Splice(sha(m), sig, sig', wanted, BITS), i)
    {
      SpliceAt(sha(m), sig, sig', wanted, BITS, i);
      assert ChunkVerifies(sha, pub, sha(m), sig, i) && ChunkVerifies(sha, pub, sha(m'), sig', i);
    }
  }

  // ---- the source's algorithms ----

  method KeyBytes(k: Key) returns (out: Bytes)
    ensures out == Flatten(k)
  {
    out := [];
    for i := 0 to BITS
      invariant out == Flatten(k[..i])
    {
      assert k[..i + 1][..i] == k[..i];
      out := out + k[i].zero;
      out := out + k[i].one;
    }
    assert k[..BITS] == k;
  }

  method KeyFromBytes(b: Bytes) returns (r: Result<Key, Error>)
    ensures r.Ok? <==> |b| == KEY_SIZE
    ensures r.Ok? ==> r.value == Unflatten(b, BITS)
  {
    if |b| != KEY_SIZE {
      return Err(InvalidKeyLength);
    }
    var k: seq<Pair> := [];
    for i := 0 to BITS
      invariant k == Unflatten(b, BITS)[..i]
    {
      k := k + [Pair(b[i * 2 * 32..i * 2 * 32 + 32], b[i * 2 * 32 + 32..i * 2 * 32 + 2 * 32])];
    }
    r := Ok(k);
  }

  method SignSPHINCS(sha: Sha256, priv: Option<Key>, message: Bytes) returns (r: Result<Bytes, Error>)
    ensures priv == None <==> r == Err(InvalidKeyLength)
    ensures priv.Some? ==> r == Ok(Signature(sha, priv.value, message))
  {
    if priv == None {
      return Err(InvalidKeyLength);
    }
    hide DigestBit;
    var digest := sha(message);
    var sig: Bytes := [];
    for i := 0 to BITS
      invariant sig == Reveal(priv.value, digest, i)
    {
      sig := sig + Half(priv.value[i], DigestBit(digest, i));
    }
    r := Ok(sig);
  }

  method VerifySPHINCS(sha: Sha256, pub: Option<Key>, message: Bytes, signature: Bytes) returns (r: Result<bool, Error>)
    ensures r == Err(InvalidKeyLength) <==> pub == None
    ensures r == Err(InvalidSignature) <==> pub.Some? && |signature| != SIGNATURE_SIZE
    ensures r.Ok? ==> pub.Some? && (r.value <==> Verifies(sha, pub.value, message, signature))
  {
    if pub == None {
      return Err(InvalidKeyLength);
    }
    if |signature| != SIGNATURE_SIZE {
      return Err(InvalidSignature);
    }
    hide DigestBit;
    var digest := sha(message);
    for i := 0 to BITS
      invariant forall k :: 0 <= k < i ==> ChunkVerifies(sha, pub.value, digest, signature, k)
    {
      var h := sha(signature[i * 32..(i + 1) * 32]);
      if h != Half(pub.value[i], DigestBit(digest, i)) {
        assert !ChunkVerifies(sha, pub.value, digest, signature, i);
        return Ok(false);
      }
    }
    r := Ok(true);
  }
}
