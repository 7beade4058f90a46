/** Properties that relate several operations of the key lifecycle:
    issuing, verifying, listing and revoking. */
module KeyLifecycle {
  import opened Schema
  import opened KeyStore
  import KeyCodec

  /** A key whose digest no earlier row carries verifies as valid, with its own
      id, right after it is stored. (The digest column is not unique, so an
      earlier row with the same digest would be found first instead.) */
  lemma IssueThenVerify(digest: KeyCodec.Digest, keys: seq<ApiKeyRow>, specs: seq<SpecRow>,
                        id: string, name: string, key: string, last4: string, now: nat)
    requires forall j :: 0 <= j < |keys| ==> keys[j].hashedKey != digest(key)
    ensures VerifyKey(digest, keys + [NewKeyRow(id, name, digest(key), last4, now)], specs, key)
         == Valid(id, name, FirstSpecs(specs, id))
  {
    var after := keys + [NewKeyRow(id, name, digest(key), last4, now)];
    assert after[|keys|].hashedKey == digest(key);
    assert FirstWithHash(after, digest(key), |keys|);
    var r := VerifyKey(digest, after, specs, key);
    var i :| FirstWithHash(after, digest(key), i)
      && (r.Revoked? <==> after[i].revoked)
      && (r.Valid? ==> r == Valid(after[i].id, after[i].name, FirstSpecs(specs, after[i].id)));
    FirstWithHashUnique(after, digest(key), i, |keys|);
  }

  /** Verification reports the revoked flag of the first row carrying the
      digest, and that row's id when it is not revoked. */
  lemma VerifiesAs(digest: KeyCodec.Digest, keys: seq<ApiKeyRow>, specs: seq<SpecRow>, key: string, i: int)
    requires FirstWithHash(keys, digest(key), i)
    ensures VerifyKey(digest, keys, specs, key) ==
      if keys[i].revoked then Revoked else Valid(keys[i].id, keys[i].name, FirstSpecs(specs, keys[i].id))
  {
    var r := VerifyKey(digest, keys, specs, key);
    assert keys[i].hashedKey == digest(key);
    var i' :| FirstWithHash(keys, digest(key), i') && (r.Revoked? <==> keys[i'].revoked)
      && (r.Valid? ==> r == Valid(keys[i'].id, keys[i'].name, FirstSpecs(specs, keys[i'].id)));
    FirstWithHashUnique(keys, digest(key), i, i');
  }

  /** Revoking changes no digest, so the first row carrying a digest stays the same. */
  lemma RevokeKeepsFirstWithHash(keys: seq<ApiKeyRow>, id: string, hashed: string, i: int)
    requires FirstWithHash(keys, hashed, i)
    ensures FirstWithHash(RevokeWhere(keys, id), hashed, i)
  {
    var after := RevokeWhere(keys, id);
    forall j | 0 <= j <= i ensures after[j].hashedKey == keys[j].hashedKey {
    }
  }

  /** Once the key a plaintext verifies as is revoked, the same plaintext
      verifies as revoked. The digest is carried by one row only: the lookup
      has no ordering, so with several such rows the store may answer from
      any of them. */
  lemma RevokeThenVerify(digest: KeyCodec.Digest, keys: seq<ApiKeyRow>, specs: seq<SpecRow>, key: string)
    requires forall a, b :: (0 <= a < |keys| && 0 <= b < |keys| && keys[a].hashedKey == digest(key)
      && keys[b].hashedKey == digest(key)) ==> a == b
    requires VerifyKey(digest, keys, specs, key).Valid?
    ensures VerifyKey(digest, RevokeWhere(keys, VerifyKey(digest, keys, specs, key).keyId), specs, key) == Revoked
  {
    var v := VerifyKey(digest, keys, specs, key);
    var i :| FirstWithHash(keys, digest(key), i) && !keys[i].revoked
      && v == Valid(keys[i].id, keys[i].name, FirstSpecs(specs, keys[i].id));
    RevokeKeepsFirstWithHash(keys, v.keyId, digest(key), i);
    var after := RevokeWhere(keys, v.keyId);
    assert after[i].revoked;
    VerifiesAs(digest, after, specs, key, i);
  }

  /** Issue, revoke, verify: the plaintext handed out once is rejected as
      revoked after its id is revoked. */
  lemma IssueRevokeVerify(digest: KeyCodec.Digest, keys: seq<ApiKeyRow>, specs: seq<SpecRow>,
                          id: string, name: string, key: string, last4: string, now: nat)
    requires forall j :: 0 <= j < |keys| ==> keys[j].hashedKey != digest(key)
    ensures VerifyKey(digest, RevokeWhere(keys + [NewKeyRow(id, name, digest(key), last4, now)], id), specs, key)
         == Revoked
  {
    var after := keys + [NewKeyRow(id, name, digest(key), last4, now)];
    IssueThenVerify(digest, keys, specs, id, name, key, last4, now);
    forall a, b | (0 <= a < |after| && 0 <= b < |after| && after[a].hashedKey == digest(key)
      && after[b].hashedKey == digest(key)) ensures a == b
    {
      assert a == |keys| && b == |keys|;
    }
    RevokeThenVerify(digest, after, specs, key);
  }

  /** Revoking never clears a revoked flag, and revoking twice is revoking
      once; the second call still reports a matched row. */
  lemma RevokeIsMonotoneAndIdempotent(keys: seq<ApiKeyRow>, id: string)
    ensures forall i :: 0 <= i < |keys| && keys[i].revoked ==> RevokeWhere(keys, id)[i].revoked
    ensures RevokeWhere(RevokeWhere(keys, id), id) == RevokeWhere(keys, id)
    ensures HasId(RevokeWhere(keys, id), id) == HasId(keys, id)
  {
    var once := RevokeWhere(keys, id);
    var twice := RevokeWhere(once, id);
    forall i | 0 <= i < |once| ensures twice[i] == once[i] {
    }
    assert twice == once;
    if HasId(keys, id) {
      var i :| 0 <= i < |keys| && keys[i].id == id;
      assert once[i].id == id;
    }
    if HasId(once, id) {
      var i :| 0 <= i < |once| && once[i].id == id;
      assert keys[i].id == id;
    }
  }

  /** A revoked key no longer appears in the listing. */
  lemma RevokedKeyNotListed(keys: seq<ApiKeyRow>, specs: seq<SpecRow>, id: string)
    ensures forall x :: x in ListKeys(RevokeWhere(keys, id), specs) ==> x.id != id
  {
    var after := RevokeWhere(keys, id);
    var listed := ListKeys(after, specs);
    forall x | x in listed ensures x.id != id {
      var i :| 0 <= i < |after| && Lists(x, after[i]);
      assert !x.revoked;
    }
  }

  /** A freshly stored key is listed, with the last4 it was stored with. */
  lemma IssuedKeyListed(keys: seq<ApiKeyRow>, specs: seq<SpecRow>,
                        id: string, name: string, hashed: string, last4: string, now: nat)
    ensures exists x :: (x in ListKeys(keys + [NewKeyRow(id, name, hashed, last4, now)], specs)
      && x.id == id && x.name == name && x.last4 == last4 && x.createdAt == now)
  {
    var after := keys + [NewKeyRow(id, name, hashed, last4, now)];
    var n := ListedAt(after, specs, |keys|);
    assert ListKeys(after, specs)[n] in ListKeys(after, specs);
  }
}
