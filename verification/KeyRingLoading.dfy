/**
 What a key ring's documents may hold: exactly the entries that load, what they load to, the ring that
 loading any sequence of entries leaves, and the order of a listing.
 */
module KeyRingLoading {
  import opened Digests
  import opened Hex
  import opened KeyRing
  import opened KeyRingObject
  import opened Numerals
  import opened Words
  import opened Wrappers
  import Lamport

  // ---- public halves ----

  /** The public bytes each algorithm takes; a hybrid key is the length 32 in four bytes and the two keys. */
  predicate PublicSize(algo: string, b: Bytes) {
    match algo {
      case "ed25519" => |b| == 32
      case "mldsa65" => |b| == 1952
      case "lamport" => |b| == 16384
      case _ => algo == "hybrid_ed25519_mldsa65" && |b| == 1988 && b[..4] == [0, 0, 0, 32]
    }
  }

  lemma HydratePublicIff(m: KeyMeta, b: Bytes)
    ensures HydratePublic(m, b).Ok? <==> PublicSize(m.algo, b)
    ensures HydratePublic(m, b).Ok? ==>
              var e := HydratePublic(m, b).value;
              e.meta == m && e == PublicPart(e) && PublicBytes(e) == b
  {
    hide Lamport.Unflatten, Lamport.Flatten;
    if m.algo == HYBRID {
      HydrateHybridIff(m, b);
    } else if m.algo == LAMPORT && |b| == 16384 {
      Lamport.FlattenUnflatten(b, 256);
    }
  }

  lemma HydrateHybridIff(m: KeyMeta, b: Bytes)
    requires m.algo == HYBRID
    ensures HydratePublic(m, b).Ok? <==> PublicSize(m.algo, b)
    ensures HydratePublic(m, b).Ok? ==>
              var e := HydratePublic(m, b).value;
              e.meta == m && e == PublicPart(e) && PublicBytes(e) == b
  {
    if |b| >= 4 {
      Be32Is32(b);
      if PublicSize(m.algo, b) { assert b == b[..4] + b[4..36] + b[36..]; }
    }
  }

  lemma Be32Is32(b: Bytes)
    requires |b| >= 4
    ensures ReadBe32(b) == 32 <==> b[..4] == [0, 0, 0, 32]
    ensures Be32(32) == [0, 0, 0, 32]
  {
  }

  /** Four big-endian bytes read back as the number they were written from. */
  lemma Be32RoundTrip(n: nat)
    requires n < 0x1_0000_0000
    ensures ReadBe32(Be32(n)) == n
  {
    var a, b, c := n / 256, n / 256 / 256, n / 256 / 256 / 256;
    DivDiv(n, 256, 256);
    DivDiv(n, 256 * 256, 256);
    DivModSum(n, 256);
    DivModSum(a, 256);
    DivModSum(b, 256);
    assert Be32(n) == [c % 256, b % 256, a % 256, n % 256] && c < 256;
    hide Be32;
  }

  /**
   A public entry loads exactly when its key is hexadecimal of the right size for its algorithm; it then
   has those bytes as its public bytes, and no private half.
   */
  lemma LoadPublicEntryIff(m: KeyMeta)
    ensures var bytes, r := HexDecode(m.publicKeyHex), LoadPublicEntry(m);
            && (r.Ok? <==> bytes.Some? && PublicSize(m.algo, bytes.value))
            && (r == Err(BadHex) <==> bytes.None?)
            && (r.Ok? ==> r.value.meta == m && r.value == PublicPart(r.value) && PublicBytes(r.value) == bytes.value)
  {
    hide HexDecode, PublicSize, PublicBytes;
    if HexDecode(m.publicKeyHex).Some? {
      HydratePublicIff(m, HexDecode(m.publicKeyHex).value);
      NotBadHex(m, HexDecode(m.publicKeyHex).value);
    }
  }

  lemma NotBadHex(m: KeyMeta, b: Bytes)
    ensures HydratePublic(m, b) != Err(BadHex)
  {
    hide Lamport.Unflatten;
  }

  // ---- private halves ----

  /** The private bytes each algorithm takes; only a hybrid key has a second half. */
  predicate PrivateSize(algo: string, priv: Bytes, pq: Bytes) {
    match algo {
      case "ed25519" => |priv| == 64
      case "mldsa65" => |priv| == 4032
      case "lamport" => |priv| == 16384
      case _ => algo == "hybrid_ed25519_mldsa65" && |priv| == 64 && |pq| == 4032
    }
  }

  /** e with these private bytes in the place of its algorithm. */
  function WithPrivate(e: Entry, priv: Bytes, pq: Bytes): Entry
    requires PrivateSize(e.meta.algo, priv, pq)
  {
    match e.meta.algo {
      case "ed25519" => e.(edPriv := Some(priv))
      case "mldsa65" => e.(mlPriv := Some(priv))
      case "lamport" => e.(lamPriv := Some(Lamport.Unflatten(priv, 256)))
      case _ => e.(edPriv := Some(priv), mlPriv := Some(pq))
    }
  }

  /**
   A full entry loads exactly when its public half does and its private half is absent, or hexadecimal of
   the right size (for a hybrid key, with its second half); it then signs with those bytes.
   */
  lemma LoadFullEntryIff(km: KeyMaterial)
    ensures var pub, r := LoadPublicEntry(km.meta), LoadFullEntry(km);
            var priv := HexDecode(km.privateHex);
            var pq := if km.hybridPqHex == "" then Some([]) else HexDecode(km.hybridPqHex);
            && (pub.Err? ==> r == pub)
            && (pub.Ok? && km.privateHex == "" ==> r == pub)
            && (pub.Ok? && km.privateHex != "" ==>
                  && (r == Err(BadHex) <==> priv.None? || pq.None?)
                  && (r.Ok? <==> priv.Some? && pq.Some? && PrivateSize(km.meta.algo, priv.value, pq.value))
                  && (r.Ok? ==> r.value == WithPrivate(pub.value.(meta := km.meta), priv.value, pq.value)))
  {
    hide HexDecode, Lamport.Unflatten, PublicBytes;
    LoadPublicEntryIff(km.meta);
    hide LoadPublicEntry, PublicSize;
  }

  // ---- whole documents ----

  /** A document loads exactly when all of its entries do, to the ring that adding them one by one leaves. */
  lemma {:induction false} LoadPublicIff(ms: seq<KeyMeta>)
    ensures LoadPublic(ms).Ok? <==> forall i :: 0 <= i < |ms| ==> LoadPublicEntry(ms[i]).Ok?
    ensures LoadPublic(ms).Ok? ==> LoadPublic(ms).value == InstallAll(PublicEntries(ms))
  {
    hide LoadPublicEntry, Install;
    if ms != [] {
      var front := ms[..|ms| - 1];
      LoadPublicIff(front);
      assert ms == front + [ms[|ms| - 1]];
      if LoadPublic(ms).Ok? { assert PublicEntries(ms)[..|front|] == PublicEntries(front); }
    }
  }

  function PublicEntries(ms: seq<KeyMeta>): (es: seq<Entry>)
    requires forall i :: 0 <= i < |ms| ==> LoadPublicEntry(ms[i]).Ok?
    ensures |es| == |ms|
  {
    seq(|ms|, i requires 0 <= i < |ms| => LoadPublicEntry(ms[i]).value)
  }

  lemma {:induction false} LoadMaterialsIff(kms: seq<KeyMaterial>)
    ensures LoadMaterials(kms).Ok? <==> forall i :: 0 <= i < |kms| ==> LoadFullEntry(kms[i]).Ok?
    ensures LoadMaterials(kms).Ok? ==> LoadMaterials(kms).value == InstallAll(FullEntries(kms))
  {
    hide LoadFullEntry, Install;
    if kms != [] {
      var front := kms[..|kms| - 1];
      LoadMaterialsIff(front);
      assert kms == front + [kms[|kms| - 1]];
      if LoadMaterials(kms).Ok? { assert FullEntries(kms)[..|front|] == FullEntries(front); }
    }
  }

  function FullEntries(kms: seq<KeyMaterial>): (es: seq<Entry>)
    requires forall i :: 0 <= i < |kms| ==> LoadFullEntry(kms[i]).Ok?
    ensures |es| == |kms|
  {
    seq(|kms|, i requires 0 <= i < |kms| => LoadFullEntry(kms[i]).value)
  }

  /** The same for a full snapshot, of version 1 and no other. */
  lemma LoadFullIff(doc: FullDoc)
    ensures LoadFull(doc) == Err(UnsupportedSnapshot) || doc.version == 1
    ensures doc.version == 1 ==>
              && (LoadFull(doc).Ok? <==> forall i :: 0 <= i < |doc.keys| ==> LoadFullEntry(doc.keys[i]).Ok?)
              && (LoadFull(doc).Ok? ==> LoadFull(doc).value == InstallAll(FullEntries(doc.keys)))
  {
    hide LoadFullEntry, FullEntries, InstallAll;
    LoadMaterialsIff(doc.keys);
  }

  /**
   What the loaded ring holds, whatever the document: under each identifier the last entry that has it,
   for each algorithm the last entry that claims to be active, and its highest version as the counter.
   */
  lemma {:induction false} LastEntryWins(es: seq<Entry>, i: nat)
    requires i < |es|
    ensures var r, m := InstallAll(es), es[i].meta;
            && m.id in r.keys && m.version <= MaxOf(r, m.algo)
            && ((forall j :: i < j < |es| ==> es[j].meta.id != m.id) ==> r.keys[m.id] == es[i])
            && (m.active ==> m.algo in r.active)
            && (m.active && (forall j :: i < j < |es| && es[j].meta.algo == m.algo ==> !es[j].meta.active) ==>
                  r.active[m.algo] == m.id)
  {
    var n := |es| - 1;
    var front := es[..n];
    InstallLast(InstallAll(front), es[n]);
    if i < n {
      LastEntryWins(front, i);
      assert forall j :: i < j < n ==> front[j] == es[j];
      InstallOther(InstallAll(front), es[n], es[i].meta);
    }
    hide Install, MaxOf;
  }

  lemma InstallLast(t: Ring, e: Entry)
    ensures var r := Install(t, e);
            && e.meta.id in r.keys && r.keys[e.meta.id] == e && e.meta.version <= MaxOf(r, e.meta.algo)
            && (e.meta.active ==> e.meta.algo in r.active && r.active[e.meta.algo] == e.meta.id)
  {
  }

  lemma InstallOther(t: Ring, e: Entry, m: KeyMeta)
    requires m.id in t.keys && m.version <= MaxOf(t, m.algo)
    ensures var r := Install(t, e);
            && m.id in r.keys && m.version <= MaxOf(r, m.algo)
            && (e.meta.id != m.id ==> r.keys[m.id] == t.keys[m.id])
            && (m.algo in t.active ==> m.algo in r.active)
            && (m.algo in t.active && !(e.meta.algo == m.algo && e.meta.active) ==>
                  r.active[m.algo] == t.active[m.algo])
  {
  }

  /** Nothing else is on it. */
  lemma {:induction false} NothingElse(es: seq<Entry>, id: string, algo: string)
    ensures var r := InstallAll(es);
            && (id in r.keys ==> exists i :: 0 <= i < |es| && es[i].meta.id == id && r.keys[id] == es[i])
            && (algo in r.active ==>
                  exists i :: 0 <= i < |es| && es[i].meta.algo == algo && es[i].meta.active
                              && r.active[algo] == es[i].meta.id)
            && (algo in r.maxVersion ==>
                  exists i :: 0 <= i < |es| && es[i].meta.algo == algo && r.maxVersion[algo] == es[i].meta.version > 0)
  {
    if es != [] {
      var n := |es| - 1;
      var front, e := es[..n], es[n];
      NothingElse(front, id, algo);
      assert es[n] == e && forall i :: 0 <= i < n ==> front[i] == es[i];
    }
  }

  // ---- listings ----

  /** The listing's string order: a proper prefix first, else by the first differing character. */
  lemma {:induction false} StrLessIff(a: string, b: string)
    ensures StrLess(a, b) <==>
              exists n :: 0 <= n <= |a| && n < |b| && a[..n] == b[..n] && (n == |a| || a[n] < b[n])
  {
    if a == "" || b == "" || a[0] != b[0] {
      if StrLess(a, b) { assert a[..0] == b[..0]; }
      forall n | 0 <= n <= |a| && n < |b| && a[..n] == b[..n] && (n == |a| || a[n] < b[n]) ensures StrLess(a, b) {
        if n > 0 { assert a[..n][0] == b[..n][0]; }
      }
    } else {
      var p, q := a[1..], b[1..];
      StrLessIff(p, q);
      if StrLess(p, q) {
        var n :| 0 <= n <= |p| && n < |q| && p[..n] == q[..n] && (n == |p| || p[n] < q[n]);
        assert a[..n + 1] == [a[0]] + p[..n] == b[..n + 1];
      }
      forall n | 0 <= n <= |a| && n < |b| && a[..n] == b[..n] && (n == |a| || a[n] < b[n]) ensures StrLess(p, q) {
        assert n > 0;
        assert p[..n - 1] == a[..n][1..] == b[..n][1..] == q[..n - 1];
      }
    }
  }

  /** Neighbours in a listing are in order: by algorithm, and within one algorithm by version. */
  lemma ListedInOrder(r: Ring, es: seq<Entry>, i: nat)
    requires Listing(r, es) && i + 1 < |es|
    ensures var a, b := es[i].meta, es[i + 1].meta;
            !StrLess(b.algo, a.algo) && (a.algo == b.algo ==> a.version <= b.version)
  {
    assert !MetaLess(es[i + 1].meta, es[i].meta);
    StrIrreflexive(es[i].meta.algo);
  }

  lemma {:induction false} StrIrreflexive(a: string)
    ensures !StrLess(a, a)
  {
    if a != "" { StrIrreflexive(a[1..]); }
  }

  // ---- migrating in one state ----

  /** A migration no creation falls into: the old signature must verify, and the result is that of signing anew. */
  lemma MigrateIs(s: Schemes, r: Ring, oldId: string, m: Bytes, oldSig: Bytes, toAlgo: string)
    ensures var migrated, was := Migrate(s, r, oldId, m, oldSig, toAlgo), Verify(s, r, oldId, m, oldSig);
            && (was == Ok(true) ==> migrated == Sign(s, r, toAlgo, m))
            && (was == Ok(false) ==> migrated == Err(OldSignatureInvalid))
            && (was.Err? ==> migrated == Err(was.error))
  {
    hide EntryVerify, EntrySign;
  }
}
