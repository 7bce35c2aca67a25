/** The key ring as the object its callers hold: methods over its three maps, and its snapshots. */
module KeyRingObject {
  import opened Digests
  import opened KeyRing
  import opened Wrappers

  // ---- the listing order ----

  /** Byte-wise string order. */
  predicate StrLess(a: string, b: string) {
    b != "" && (a == "" || a[0] < b[0] || (a[0] == b[0] && StrLess(a[1..], b[1..])))
  }

  predicate MetaLess(a: KeyMeta, b: KeyMeta) {
    if a.algo != b.algo then StrLess(a.algo, b.algo) else a.version < b.version
  }

  lemma {:induction false} StrLessAsymmetric(a: string, b: string)
    requires StrLess(a, b)
    ensures !StrLess(b, a)
  {
    if a != "" && a[0] == b[0] { StrLessAsymmetric(a[1..], b[1..]); }
  }

  predicate SortedMetas(es: seq<Entry>) {
    forall i :: 0 <= i < |es| - 1 ==> !MetaLess(es[i + 1].meta, es[i].meta)
  }

  /** All of the ring's entries once each, sorted by algorithm and version. */
  ghost predicate Listing(r: Ring, es: seq<Entry>) {
    Drawn(r, es) && Covers(r, es) && |es| == |r.keys| && SortedMetas(es)
  }

  ghost predicate IdsMatch(r: Ring) {
    forall id :: id in r.keys ==> r.keys[id].meta.id == id
  }

  method InsertSorted(es: seq<Entry>, e: Entry) returns (out: seq<Entry>, ghost p: nat)
    requires SortedMetas(es)
    ensures p <= |es| && out == es[..p] + [e] + es[p..] && SortedMetas(out)
  {
    var i := 0;
    while i < |es| && !MetaLess(e.meta, es[i].meta)
      invariant 0 <= i <= |es|
      invariant i > 0 ==> !MetaLess(e.meta, es[i - 1].meta)
    {
      i := i + 1;
    }
    if i < |es| && e.meta.algo != es[i].meta.algo {
      StrLessAsymmetric(e.meta.algo, es[i].meta.algo);
    }
    out, p := es[..i] + [e] + es[i..], i;
    hide StrLess;
  }

  lemma ListingGrows(r: Ring, es: seq<Entry>, out: seq<Entry>, p: nat, left: set<string>, id: string)
    requires IdsMatch(r) && Drawn(r, es) && left <= r.keys.Keys && id in left && |es| + |left| == |r.keys|
    requires forall k :: k in r.keys && k !in left ==> Member(es, k)
    requires p <= |es| && out == es[..p] + [r.keys[id]] + es[p..]
    ensures Drawn(r, out) && |out| + |left - {id}| == |r.keys|
    ensures forall k :: k in r.keys && k !in left - {id} ==> Member(out, k)
  {
    forall k | k in r.keys && k !in left - {id} ensures Member(out, k) {
      if k == id {
        assert out[p].meta.id == k;
      } else {
        var i :| 0 <= i < |es| && es[i].meta.id == k;
        assert out[if i < p then i else i + 1].meta.id == k;
      }
    }
  }

  ghost predicate Member(es: seq<Entry>, id: string) {
    exists i :: 0 <= i < |es| && es[i].meta.id == id
  }

  class LiveRing {
    const schemes: Schemes
    var keys: map<string, Entry>
    var active: map<string, string>
    var perAlgoMaxVersion: map<string, int>

    ghost function View(): Ring
      reads this
    {
      Ring(keys, active, perAlgoMaxVersion)
    }

    constructor (s: Schemes)
      ensures View() == EMPTY && schemes == s
    {
      schemes := s;
      keys := map[];
      active := map[];
      perAlgoMaxVersion := map[];
    }

    /** CreateKey and its alias RotateKey. */
    method CreateKey(algo: string, f: Randomness, now: int) returns (r: Result<KeyMeta, Error>)
      requires MaxOf(View(), algo) >= 0
      modifies this
      ensures match Create(schemes, old(View()), algo, f, now)
              case Ok(t) =>
                View() == t && algo in t.active && t.active[algo] in t.keys && r == Ok(t.keys[t.active[algo]].meta)
              case Err(e) => View() == old(View()) && r == Err(e)
    {
      hide PublicBytes, KeyId, Generate, Hex.HexEncode;
      var generated := Generate(schemes, algo, f);
      if generated.Err? {
        return Err(generated.error);
      }
      var entry := generated.value;
      var nextVersion := (if algo in perAlgoMaxVersion then perAlgoMaxVersion[algo] else 0) + 1;
      perAlgoMaxVersion := perAlgoMaxVersion[algo := nextVersion];
      entry := entry.(meta := NO_META.(algo := algo));
      var pub := PublicBytes(entry);
      var id := KeyId(schemes, algo, nextVersion, pub);
      entry := entry.(meta := KeyMeta(id, algo, nextVersion, Hex.HexEncode(pub), now, None, true));
      if algo in active && active[algo] != "" && active[algo] in keys {
        var prev := keys[active[algo]];
        prev := prev.(meta := prev.meta.(retiredAt := Some(now)));
        prev := prev.(meta := prev.meta.(active := false));
        keys := keys[active[algo] := prev];
      }
      keys := keys[id := entry];
      active := active[algo := id];
      r := Ok(entry.meta);
    }

    method SignWithKey(id: string, message: Bytes) returns (r: Result<Bytes, Error>)
      ensures r == KeyRing.SignWithKey(schemes, View(), id, message)
    {
      if id !in keys {
        return Err(UnknownKey);
      }
      r := EntrySign(schemes, keys[id], message);
    }

    method Sign(algo: string, message: Bytes) returns (r: Result<(Bytes, string), Error>)
      ensures r == KeyRing.Sign(schemes, View(), algo, message)
    {
      if algo !in active || active[algo] == "" {
        return Err(NoActiveKey);
      }
      var id := active[algo];
      var sig := SignWithKey(id, message);
      if sig.Err? {
        return Err(sig.error);
      }
      r := Ok((sig.value, id));
    }

    method Verify(id: string, message: Bytes, signature: Bytes) returns (r: Result<bool, Error>)
      ensures r == KeyRing.Verify(schemes, View(), id, message, signature)
    {
      if id !in keys {
        return Err(UnknownKey);
      }
      r := EntryVerify(schemes, keys[id], message, signature);
    }

    method MigrateSignature(oldId: string, message: Bytes, oldSignature: Bytes, toAlgo: string)
      returns (r: Result<(Bytes, string), Error>)
      ensures r == Migrate(schemes, View(), oldId, message, oldSignature, toAlgo)
    {
      var ok := Verify(oldId, message, oldSignature);
      if ok.Err? {
        return Err(ok.error);
      }
      if !ok.value {
        return Err(OldSignatureInvalid);
      }
      r := Sign(toAlgo, message);
    }

    /** Every entry, visited in an arbitrary order and sorted by algorithm and version. */
    method List() returns (out: seq<Entry>)
      requires IdsMatch(View())
      ensures Listing(View(), out)
    {
      out := [];
      var left := keys.Keys;
      while left != {}
        invariant left <= keys.Keys && Drawn(View(), out) && SortedMetas(out)
        invariant |out| + |left| == |keys|
        invariant forall k :: k in keys && k !in left ==> Member(out, k)
        decreases |left|
      {
        var id :| id in left;
        ghost var before := out;
        ghost var p: nat;
        out, p := InsertSorted(out, keys[id]);
        ListingGrows(View(), before, out, p, left, id);
        left := left - {id};
      }
    }

    method MarshalPublic() returns (doc: seq<KeyMeta>)
      requires IdsMatch(View())
      ensures exists es :: Listing(View(), es) && doc == Metas(es)
    {
      var es := List();
      doc := Metas(es);
    }

    method MarshalFull() returns (doc: FullDoc)
      requires IdsMatch(View())
      ensures exists es :: Listing(View(), es) && doc == FullDoc(1, Materials(es))
    {
      hide MaterialOf;
      var es := List();
      var kms: seq<KeyMaterial> := [];
      for i := 0 to |es|
        invariant kms == Materials(es)[..i]
      {
        kms := kms + [MaterialOf(keys[es[i].meta.id])];
      }
      assert kms == Materials(es);
      doc := FullDoc(1, kms);
    }

    /** One loaded entry takes its place on the ring. */
    method Add(e: Entry)
      modifies this
      ensures View() == Install(old(View()), e)
    {
      keys := keys[e.meta.id := e];
      if e.meta.version > (if e.meta.algo in perAlgoMaxVersion then perAlgoMaxVersion[e.meta.algo] else 0) {
        perAlgoMaxVersion := perAlgoMaxVersion[e.meta.algo := e.meta.version];
      }
      if e.meta.active {
        active := active[e.meta.algo := e.meta.id];
      }
    }
  }

  /** A new ring from a public snapshot. */
  method LoadPublicKeyRing(s: Schemes, doc: seq<KeyMeta>) returns (err: Option<Error>, ring: LiveRing)
    ensures fresh(ring) && ring.schemes == s
    ensures match LoadPublic(doc) case Ok(r) => err == None && ring.View() == r case Err(e) => err == Some(e)
  {
    hide LoadPublicEntry, Install;
    ring := new LiveRing(s);
    for i := 0 to |doc|
      invariant fresh(ring) && LoadPublic(doc[..i]) == Ok(ring.View())
    {
      assert doc[..i + 1][..i] == doc[..i];
      var e := LoadPublicEntry(doc[i]);
      if e.Err? {
        LoadPublicStops(doc, i + 1);
        return Some(e.error), ring;
      }
      ring.Add(e.value);
    }
    assert doc[..|doc|] == doc;
    err := None;
  }

  lemma {:induction false} LoadPublicStops(doc: seq<KeyMeta>, i: nat)
    requires i <= |doc| && LoadPublic(doc[..i]).Err?
    ensures LoadPublic(doc) == LoadPublic(doc[..i])
    decreases |doc|
  {
    if i < |doc| {
      assert doc[..|doc| - 1][..i] == doc[..i];
      LoadPublicStops(doc[..|doc| - 1], i);
    } else {
      assert doc[..i] == doc;
    }
  }

  /** A new ring from a full snapshot. */
  method LoadFullKeyRing(s: Schemes, doc: FullDoc) returns (err: Option<Error>, ring: LiveRing)
    ensures fresh(ring) && ring.schemes == s
    ensures match LoadFull(doc) case Ok(r) => err == None && ring.View() == r case Err(e) => err == Some(e)
  {
    hide LoadFullEntry, Install;
    ring := new LiveRing(s);
    if doc.version != 1 {
      return Some(UnsupportedSnapshot), ring;
    }
    var kms := doc.keys;
    for i := 0 to |kms|
      invariant fresh(ring) && LoadMaterials(kms[..i]) == Ok(ring.View())
    {
      assert kms[..i + 1][..i] == kms[..i];
      var e := LoadFullEntry(kms[i]);
      if e.Err? {
        LoadMaterialsStops(kms, i + 1);
        return Some(e.error), ring;
      }
      ring.Add(e.value);
    }
    assert kms[..|kms|] == kms;
    err := None;
  }

  lemma {:induction false} LoadMaterialsStops(kms: seq<KeyMaterial>, i: nat)
    requires i <= |kms| && LoadMaterials(kms[..i]).Err?
    ensures LoadMaterials(kms) == LoadMaterials(kms[..i])
    decreases |kms|
  {
    if i < |kms| {
      assert kms[..|kms| - 1][..i] == kms[..i];
      LoadMaterialsStops(kms[..|kms| - 1], i);
    } else {
      assert kms[..i] == kms;
    }
  }

  /** Saving a ring in full and loading it back gives a ring with the same state. */
  method SaveAndRestore(ring: LiveRing) returns (err: Option<Error>, restored: LiveRing)
    requires Inv(ring.schemes, ring.View())
    ensures err == None && fresh(restored) && restored.View() == ring.View() && restored.schemes == ring.schemes
  {
    hide LoadFull, LoadMaterials, Install, Drawn, Covers;
    InvIds(ring.schemes, ring.View());
    var doc := ring.MarshalFull();
    ghost var es :| Listing(ring.View(), es) && doc == FullDoc(1, Materials(es));
    FullSnapshotRoundTrip(ring.schemes, ring.View(), es);
    err, restored := LoadFullKeyRing(ring.schemes, doc);
  }

  /** Publishing a ring and loading the publication gives the ring that verifies the same and never signs. */
  method PublishAndRestore(ring: LiveRing) returns (err: Option<Error>, restored: LiveRing)
    requires Inv(ring.schemes, ring.View())
    ensures err == None && fresh(restored) && restored.View() == VerifyOnly(ring.View())
    ensures restored.schemes == ring.schemes
  {
    hide LoadPublic, Install, Drawn, Covers, VerifyOnly;
    InvIds(ring.schemes, ring.View());
    var doc := ring.MarshalPublic();
    ghost var es :| Listing(ring.View(), es) && doc == Metas(es);
    PublicSnapshotRoundTrip(ring.schemes, ring.View(), es);
    err, restored := LoadPublicKeyRing(ring.schemes, doc);
  }

  lemma InvIds(s: Schemes, r: Ring)
    requires Inv(s, r)
    ensures IdsMatch(r)
  {
    hide Inv, EntryOk;
    forall id | id in r.keys ensures r.keys[id].meta.id == id { ActiveIs(s, r, id); }
  }
}
