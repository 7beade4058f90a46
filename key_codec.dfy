/** Generation of a plaintext API key and the values derived from it
    (src/server/keys.ts, `generatePlainKey` and `sha256`). */
module KeyCodec {
  import opened Common
  import Base64Url

  /** The scheme tag used when the KEY_PREFIX environment variable is unset. */
  const DefaultPrefix: string := "sk_live_"

  /** How many random bytes `insertKey` asks `generatePlainKey` for. */
  const DefaultKeyBytes: nat := 24

  /** The one-way digest of a plaintext key (hex SHA-256 in the source). It is
      treated as an arbitrary deterministic function: no property of SHA-256
      beyond being a function is assumed anywhere in the model. */
  type Digest = string -> string

  /** The prefix in force: the environment value when it is set (even when it
      is empty, since `??` only replaces an unset value), the default otherwise. */
  function ConfiguredPrefix(env: Option<string>): (p: string)
    ensures env.None? ==> p == DefaultPrefix
    ensures env.Some? ==> p == env.value
  {
    env.GetOr(DefaultPrefix)
  }

  /** A freshly generated key and the display suffix derived from it. */
  datatype PlainKey = PlainKey(key: string, last4: string)

  /** `s.slice(-4)`: the last four characters, or all of a shorter string. */
  function SliceLast4(s: string): (r: string)
    ensures |r| == if |s| < 4 then |s| else 4
    ensures r == s[|s| - |r|..]
  {
    if |s| < 4 then s else s[|s| - 4..]
  }

  /** The key is the prefix followed by the base64url text of the random
      bytes, and `last4` is the final four characters of that whole key. */
  function GeneratePlainKey(prefix: string, random: seq<byte>): (k: PlainKey)
    ensures |k.key| == |prefix| + Base64Url.EncodedLength(|random|)
    ensures k.key[..|prefix|] == prefix
    ensures Base64Url.Decode(k.key[|prefix|..]) == Some(random)
    ensures |k.last4| == if |k.key| < 4 then |k.key| else 4
    ensures k.last4 == k.key[|k.key| - |k.last4|..]
  {
    Base64Url.DecodeEncode(random);
    var key := prefix + Base64Url.Encode(random);
    assert key[|prefix|..] == Base64Url.Encode(random);
    PlainKey(key, SliceLast4(key))
  }

  /** With the default prefix and 24 random bytes, a key is "sk_live_"
      followed by 32 URL-safe characters, and `last4` is four of them. */
  lemma DefaultKeyShape(random: seq<byte>)
    requires |random| == DefaultKeyBytes
    ensures var k := GeneratePlainKey(DefaultPrefix, random);
      && |k.key| == 40
      && k.key[..8] == "sk_live_"
      && (forall i :: 8 <= i < 40 ==> Base64Url.IsUrlSafe(k.key[i]))
      && k.last4 == k.key[36..]
      && forall i :: 0 <= i < 4 ==> Base64Url.IsUrlSafe(k.last4[i])
  {
    var k := GeneratePlainKey(DefaultPrefix, random);
    var raw := Base64Url.Encode(random);
    assert |raw| == 32;
    assert k.key == DefaultPrefix + raw;
    forall i | 8 <= i < 40 ensures Base64Url.IsUrlSafe(k.key[i]) {
      assert k.key[i] == raw[i - 8];
    }
  }

  /** Different random bytes give different keys under the same prefix, so
      distinct draws of the random source never collide. */
  lemma DistinctRandomDistinctKeys(prefix: string, a: seq<byte>, b: seq<byte>)
    requires a != b
    ensures GeneratePlainKey(prefix, a).key != GeneratePlainKey(prefix, b).key
  {
  }
}
