/** The handler of src/app/api/ping/route.ts: authenticates a request by its
    `x-api-key` header and answers with the key id or the refusal reason. */
module PingRoute {
  import opened Common
  import opened Schema
  import opened Http
  import opened KeyStore
  import KeyCodec
  import KeyLifecycle

  datatype PingBody =
    | Denied(error: string)
    | Pong(ok: bool, message: string, keyId: string)

  /** The text verified: the header value, or the empty text when the header
      is missing. */
  function Presented(header: Option<string>): string {
    header.GetOr("")
  }

  /** GET: 401 with reason "not_found" when no row carries the digest of the
      presented text, 401 with "revoked" when the first such row is revoked,
      and 200 with that row's id otherwise. The tables are only read. */
  function Get(digest: KeyCodec.Digest, keys: seq<ApiKeyRow>, specs: seq<SpecRow>, header: Option<string>)
    : (r: Response<PingBody>)
    ensures var h := digest(Presented(header));
      r == Response(StatusUnauthorized, Denied("not_found")) <==> forall j :: 0 <= j < |keys| ==> keys[j].hashedKey != h
    ensures var h := digest(Presented(header));
      r == Response(StatusUnauthorized, Denied("revoked")) <==> exists i :: FirstWithHash(keys, h, i) && keys[i].revoked
    ensures var h := digest(Presented(header));
      r.status == StatusOk <==> exists i :: FirstWithHash(keys, h, i) && !keys[i].revoked
    ensures var h := digest(Presented(header));
      r.status == StatusOk ==> exists i :: (FirstWithHash(keys, h, i) && r.body == Pong(true, "Hello GET", keys[i].id))
    ensures r.status == StatusOk || r.status == StatusUnauthorized
  {
    var result := VerifyKey(digest, keys, specs, Presented(header));
    if !result.Valid? then
      Response(StatusUnauthorized, Denied(result.Reason()))
    else
      Response(StatusOk, Pong(true, "Hello GET", result.keyId))
  }

  /** A missing header is checked exactly like an empty one. */
  lemma MissingHeaderIsEmptyKey(digest: KeyCodec.Digest, keys: seq<ApiKeyRow>, specs: seq<SpecRow>)
    ensures Get(digest, keys, specs, None) == Get(digest, keys, specs, Some(""))
  {
  }

  /** Right after a key is stored, presenting it is answered 200 with its id,
      unless an earlier row carries the same digest. */
  lemma PingAfterIssue(digest: KeyCodec.Digest, keys: seq<ApiKeyRow>, specs: seq<SpecRow>,
                       id: string, name: string, key: string, last4: string, now: nat)
    requires forall j :: 0 <= j < |keys| ==> keys[j].hashedKey != digest(key)
    ensures Get(digest, keys + [NewKeyRow(id, name, digest(key), last4, now)], specs, Some(key))
         == Response(StatusOk, Pong(true, "Hello GET", id))
  {
    KeyLifecycle.IssueThenVerify(digest, keys, specs, id, name, key, last4, now);
  }

  /** After the key is revoked, presenting it is answered 401 "revoked". */
  lemma PingAfterRevoke(digest: KeyCodec.Digest, keys: seq<ApiKeyRow>, specs: seq<SpecRow>,
                        id: string, name: string, key: string, last4: string, now: nat)
    requires forall j :: 0 <= j < |keys| ==> keys[j].hashedKey != digest(key)
    ensures Get(digest, RevokeWhere(keys + [NewKeyRow(id, name, digest(key), last4, now)], id), specs, Some(key))
         == Response(StatusUnauthorized, Denied("revoked"))
  {
    KeyLifecycle.IssueRevokeVerify(digest, keys, specs, id, name, key, last4, now);
    var after := RevokeWhere(keys + [NewKeyRow(id, name, digest(key), last4, now)], id);
    assert VerifyKey(digest, after, specs, Presented(Some(key))) == Revoked;
  }
}
