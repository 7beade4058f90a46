/** The handlers of src/app/api/keys/route.ts: issue (POST), list (GET) and
    revoke (DELETE). A request body that is not JSON is `None`. */
module KeysRoute {
  import opened Common
  import opened Js
  import opened Schema
  import opened Http
  import opened KeyStore
  import opened Validation
  import KeyCodec
  import Uuid

  /** One item of the listing: the key is shown only as `****` and its last4. */
  datatype MaskedItem = MaskedItem(id: string, name: string, masked: string, createdAt: nat)

  /** The response bodies of the three handlers. */
  datatype KeysBody =
    | Issued(id: string, name: string, key: string, last4: string)
    | Invalid(error: string, details: seq<Issue>)
    | Error(error: string)
    | Items(items: seq<MaskedItem>)
    | Revocation(success: bool)

  /** The masked form of a stored last4. */
  function Mask(last4: string): (m: string)
    ensures |m| == 4 + |last4| && m[..4] == "****" && m[4..] == last4
  {
    "****" + last4
  }

  function MaskItem(x: ListedKey): MaskedItem {
    MaskedItem(x.id, x.name, Mask(x.last4), x.createdAt)
  }

  /** `item` shows the row `k` and nothing else of it. */
  predicate Shows(item: MaskedItem, k: ApiKeyRow) {
    item.id == k.id && item.name == k.name && item.createdAt == k.createdAt && item.masked == Mask(k.last4)
  }

  /** The listing mapped item by item to its masked form. */
  function MaskAll(listed: seq<ListedKey>): (items: seq<MaskedItem>)
    ensures |items| == |listed|
    ensures forall i :: 0 <= i < |listed| ==> items[i] == MaskItem(listed[i])
  {
    seq(|listed|, i requires 0 <= i < |listed| => MaskItem(listed[i]))
  }

  /** Every masked item shows a non-revoked key row. */
  lemma MaskedFromKeys(keys: seq<ApiKeyRow>, specs: seq<SpecRow>)
    ensures forall x :: x in MaskAll(ListKeys(keys, specs)) ==>
      exists i :: 0 <= i < |keys| && !keys[i].revoked && Shows(x, keys[i])
  {
    var listed := ListKeys(keys, specs);
    var items := MaskAll(listed);
    forall x | x in items ensures exists i :: 0 <= i < |keys| && !keys[i].revoked && Shows(x, keys[i]) {
      var n := PositionOf(items, x);
      assert listed[n] in listed;
      var i :| 0 <= i < |keys| && Lists(listed[n], keys[i]);
      assert Shows(x, keys[i]);
    }
  }

  /** The masked form of a listed key shows the row it lists. */
  lemma MaskShows(items: seq<MaskedItem>, listed: seq<ListedKey>, n: nat, k: ApiKeyRow)
    requires items == MaskAll(listed) && n < |listed| && Lists(listed[n], k)
    ensures items[n] in items && Shows(items[n], k)
  {
  }

  /** Every non-revoked key row is shown by some masked item. */
  lemma MaskedCoversKeys(keys: seq<ApiKeyRow>, specs: seq<SpecRow>)
    ensures forall i :: 0 <= i < |keys| && !keys[i].revoked ==>
      exists x :: x in MaskAll(ListKeys(keys, specs)) && Shows(x, keys[i])
  {
    var listed := ListKeys(keys, specs);
    var items := MaskAll(listed);
    forall i | 0 <= i < |keys| && !keys[i].revoked
      ensures exists x :: x in items && Shows(x, keys[i])
    {
      var n := ListedAt(keys, specs, i);
      MaskShows(items, listed, n, keys[i]);
    }
  }

  /** GET: every non-revoked key, newest first, masked; no digest, plaintext
      or revoked flag leaves the store. */
  function Get(keys: seq<ApiKeyRow>, specs: seq<SpecRow>): (r: Response<KeysBody>)
    ensures r.status == StatusOk && r.body.Items?
    ensures |r.body.items| == |ListKeys(keys, specs)|
    ensures forall i, j :: 0 <= i < j < |r.body.items| ==> r.body.items[i].createdAt >= r.body.items[j].createdAt
    ensures forall x :: x in r.body.items ==> exists i :: 0 <= i < |keys| && !keys[i].revoked && Shows(x, keys[i])
    ensures forall i :: 0 <= i < |keys| && !keys[i].revoked ==> exists x :: x in r.body.items && Shows(x, keys[i])
  {
    MaskedFromKeys(keys, specs);
    MaskedCoversKeys(keys, specs);
    Response(StatusOk, Items(MaskAll(ListKeys(keys, specs))))
  }

  /** POST: a body that is not JSON is a server error; a body failing the
      name check is a 400 with the issues; otherwise a key is issued (without
      spec data) and returned once in plaintext with status 201. A failing
      insert is a server error. Spec rows are never written. */
  method Post(db: Database, body: Option<JsonValue>,
              random: seq<byte>, keyRandom: seq<byte>, specRandom: seq<byte>, now: nat)
    returns (resp: Response<KeysBody>)
    requires db.Valid()
    requires |random| == KeyCodec.DefaultKeyBytes && |keyRandom| == 16 && |specRandom| == 16
    modifies db`keys, db`specs
    ensures db.Valid()
    ensures db.specs == old(db.specs)
    ensures body.None? ==> resp == Response(StatusServerError, Error("Failed to create API key")) && db.keys == old(db.keys)
    ensures body.Some? && ParseCreateApiKey(body.value).Failure? ==>
      resp == Response(StatusBadRequest, Invalid("Validation failed", ParseCreateApiKey(body.value).error))
      && db.keys == old(db.keys)
    ensures body.Some? && ParseCreateApiKey(body.value).Success? ==>
      var name := ParseCreateApiKey(body.value).value;
      var id := Uuid.RandomUuid(keyRandom);
      var k := KeyCodec.GeneratePlainKey(db.prefix, random);
      if HasId(old(db.keys), id) then
        resp == Response(StatusServerError, Error("Failed to create API key")) && db.keys == old(db.keys)
      else
        && resp == Response(StatusCreated, Issued(id, name, k.key, k.last4))
        && db.keys == old(db.keys) + [NewKeyRow(id, name, db.digest(k.key), k.last4, now)]
  {
    if body.None? {
      return Response(StatusServerError, Error("Failed to create API key"));
    }
    var parsed := ParseCreateApiKey(body.value);
    if parsed.Failure? {
      return Response(StatusBadRequest, Invalid("Validation failed", parsed.error));
    }
    var r := db.InsertKey(parsed.value, None, random, keyRandom, specRandom, now);
    if r.Failure? {
      return Response(StatusServerError, Error("Failed to create API key"));
    }
    resp := Response(StatusCreated, Issued(r.value.id, r.value.name, r.value.key, r.value.last4));
  }

  /** DELETE: a missing or empty keyId is a 400; one that is not a UUID is a
      400 with the issue; otherwise the key is revoked and the status is 200
      exactly when a row with that id exists (revoked before or not), 404
      otherwise. The store changes only in the last case. */
  method Delete(db: Database, keyId: Option<string>) returns (resp: Response<KeysBody>)
    requires db.Valid()
    modifies db`keys
    ensures db.Valid()
    ensures keyId.None? || keyId.value == "" ==>
      resp == Response(StatusBadRequest, Error("keyId is required")) && db.keys == old(db.keys)
    ensures keyId.Some? && keyId.value != "" && !Uuid.IsUuid(keyId.value) ==>
      resp == Response(StatusBadRequest, Invalid("Invalid keyId format", [Issue(["keyId"], InvalidUuid)]))
      && db.keys == old(db.keys)
    ensures keyId.Some? && Uuid.IsUuid(keyId.value) ==>
      && db.keys == RevokeWhere(old(db.keys), keyId.value)
      && (if HasId(old(db.keys), keyId.value) then resp == Response(StatusOk, Revocation(true))
          else resp == Response(StatusNotFound, Error("API key not found or already revoked")))
  {
    if keyId.None? || keyId.value == "" {
      return Response(StatusBadRequest, Error("keyId is required"));
    }
    var parsed := ParseDeleteKey(keyId.value);
    if parsed.Failure? {
      return Response(StatusBadRequest, Invalid("Invalid keyId format", parsed.error));
    }
    var ok := db.RevokeKey(parsed.value);
    if !ok {
      return Response(StatusNotFound, Error("API key not found or already revoked"));
    }
    resp := Response(StatusOk, Revocation(true));
  }

  /** A key issued by POST shows up in the GET listing, masked down to the
      last four characters of the plaintext the POST returned. */
  lemma IssuedKeyShownMasked(digest: KeyCodec.Digest, keys: seq<ApiKeyRow>, specs: seq<SpecRow>,
                             prefix: string, random: seq<byte>, id: string, name: string, now: nat)
    requires |random| == KeyCodec.DefaultKeyBytes
    ensures var k := KeyCodec.GeneratePlainKey(prefix, random);
      var after := keys + [NewKeyRow(id, name, digest(k.key), k.last4, now)];
      exists x :: (x in Get(after, specs).body.items && x.id == id
        && x.masked == "****" + k.key[|k.key| - 4..])
  {
    var k := KeyCodec.GeneratePlainKey(prefix, random);
    var after := keys + [NewKeyRow(id, name, digest(k.key), k.last4, now)];
    var listed := ListKeys(after, specs);
    var items := Get(after, specs).body.items;
    var n := ListedAt(after, specs, |keys|);
    assert items == MaskAll(listed);
    MaskShows(items, listed, n, after[|keys|]);
    assert items[n].masked == "****" + k.last4;
  }
}
