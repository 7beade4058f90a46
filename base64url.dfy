/** The unpadded base64url text encoding (section 5 of RFC 4648) that
    `Buffer.toString("base64url")` applies to the random bytes of a key. */
module Base64Url {
  import opened Common

  /** Characters of the URL- and filename-safe alphabet. */
  predicate IsUrlSafe(c: char) {
    ('A' <= c <= 'Z') || ('a' <= c <= 'z') || ('0' <= c <= '9') || c == '-' || c == '_'
  }

  /** The character that stands for a 6-bit value. */
  function SextetChar(v: nat): (c: char)
    requires v < 64
    ensures IsUrlSafe(c)
  {
    if v < 26 then ('A' as int + v) as char
    else if v < 52 then ('a' as int + (v - 26)) as char
    else if v < 62 then ('0' as int + (v - 52)) as char
    else if v == 62 then '-'
    else '_'
  }

  /** The 6-bit value a character stands for, if it belongs to the alphabet. */
  function CharSextet(c: char): (r: Option<nat>)
    ensures r.Some? <==> IsUrlSafe(c)
    ensures r.Some? ==> r.value < 64 && SextetChar(r.value) == c
  {
    if 'A' <= c <= 'Z' then Some(c as int - 'A' as int)
    else if 'a' <= c <= 'z' then Some(c as int - 'a' as int + 26)
    else if '0' <= c <= '9' then Some(c as int - '0' as int + 52)
    else if c == '-' then Some(62)
    else if c == '_' then Some(63)
    else None
  }

  /** Length of the unpadded encoding of `n` bytes: four characters per full
      group of three bytes, and 2 or 3 characters for a trailing 1 or 2 bytes. */
  function EncodedLength(n: nat): nat {
    n / 3 * 4 + (if n % 3 == 0 then 0 else n % 3 + 1)
  }

  predicate AllSextets(v: seq<nat>) {
    forall i :: 0 <= i < |v| ==> v[i] < 64
  }

  /** The four 6-bit values of a group of three bytes, most significant bits
      first. */
  function SplitGroup(b0: byte, b1: byte, b2: byte): (v: seq<nat>)
    ensures |v| == 4 && AllSextets(v)
  {
    [b0 / 4, b0 % 4 * 16 + b1 / 16, b1 % 16 * 4 + b2 / 64, b2 % 64]
  }

  /** The three bytes packed in four 6-bit values. */
  function JoinGroup(s0: nat, s1: nat, s2: nat, s3: nat): (b: seq<byte>)
    requires s0 < 64 && s1 < 64 && s2 < 64 && s3 < 64
    ensures |b| == 3
  {
    [s0 * 4 + s1 / 16, s1 % 16 * 16 + s2 / 4, s2 % 4 * 64 + s3]
  }

  /** Splits bytes into 6-bit values; a trailing partial group is padded with
      zero bits, and only the values that carry its bits are kept (no padding
      characters). */
  function ToSextets(bytes: seq<byte>): (v: seq<nat>)
    ensures |v| == EncodedLength(|bytes|)
    ensures AllSextets(v)
    decreases |bytes|
  {
    if |bytes| == 0 then []
    else if |bytes| == 1 then SplitGroup(bytes[0], 0, 0)[..2]
    else if |bytes| == 2 then SplitGroup(bytes[0], bytes[1], 0)[..3]
    else SplitGroup(bytes[0], bytes[1], bytes[2]) + ToSextets(bytes[3..])
  }

  /** Joins 6-bit values back into bytes, dropping the padding bits of a
      trailing partial group; a single value left over is not valid. */
  function FromSextets(v: seq<nat>): (r: Option<seq<byte>>)
    requires AllSextets(v)
    decreases |v|
  {
    if |v| == 0 then Some([])
    else if |v| == 1 then None
    else if |v| == 2 then Some(JoinGroup(v[0], v[1], 0, 0)[..1])
    else if |v| == 3 then Some(JoinGroup(v[0], v[1], v[2], 0)[..2])
    else
      match FromSextets(v[4..])
      case None => None
      case Some(rest) => Some(JoinGroup(v[0], v[1], v[2], v[3]) + rest)
  }

  /** Unpadded base64url encoding. */
  function Encode(bytes: seq<byte>): (s: string)
    ensures |s| == EncodedLength(|bytes|)
    ensures forall i :: 0 <= i < |s| ==> IsUrlSafe(s[i])
  {
    var v := ToSextets(bytes);
    seq(|v|, i requires 0 <= i < |v| => SextetChar(v[i]))
  }

  /** Decoding of unpadded base64url text; fails on a character outside the
      alphabet or on a length that leaves a single character over. */
  function Decode(s: string): (r: Option<seq<byte>>)
  {
    if forall i :: 0 <= i < |s| ==> IsUrlSafe(s[i]) then
      var v := seq(|s|, i requires 0 <= i < |s| => CharSextet(s[i]).value);
      FromSextets(v)
    else None
  }

  lemma CharRoundTrip(v: nat)
    requires v < 64
    ensures CharSextet(SextetChar(v)) == Some(v)
  {
  }

  /** The bit arithmetic of one group: joining the values a group splits
      into gives the group back. */
  lemma GroupArithmetic(b0: byte, b1: byte, b2: byte)
    ensures var v := SplitGroup(b0, b1, b2); JoinGroup(v[0], v[1], v[2], v[3]) == [b0, b1, b2]
  {
  }

  /** A trailing single byte: two values give it back. */
  lemma OneByteRoundTrip(b0: byte)
    ensures FromSextets(ToSextets([b0])) == Some([b0])
  {
    var v := SplitGroup(b0, 0, 0);
    var w := ToSextets([b0]);
    assert w == v[..2];
    GroupArithmetic(b0, 0, 0);
    assert v[2] == 0 && v[3] == 0;
    assert JoinGroup(w[0], w[1], 0, 0) == [b0, 0, 0];
    assert FromSextets(w) == Some(JoinGroup(w[0], w[1], 0, 0)[..1]);
    assert [b0, 0, 0][..1] == [b0];
  }

  /** A trailing pair of bytes: three values give them back. */
  lemma TwoBytesRoundTrip(b0: byte, b1: byte)
    ensures FromSextets(ToSextets([b0, b1])) == Some([b0, b1])
  {
    var v := SplitGroup(b0, b1, 0);
    var w := ToSextets([b0, b1]);
    assert w == v[..3];
    GroupArithmetic(b0, b1, 0);
    assert v[3] == 0;
    assert JoinGroup(w[0], w[1], w[2], 0) == [b0, b1, 0];
    assert FromSextets(w) == Some(JoinGroup(w[0], w[1], w[2], 0)[..2]);
    assert [b0, b1, 0][..2] == [b0, b1];
  }

  /** The encoding of bytes with a full group in front. */
  lemma EncodeGroup(bytes: seq<byte>)
    requires |bytes| >= 3
    ensures ToSextets(bytes) == SplitGroup(bytes[0], bytes[1], bytes[2]) + ToSextets(bytes[3..])
  {
  }

  /** Decoding four values in front of decodable ones. */
  lemma DecodeGroup(w: seq<nat>, tail: seq<byte>)
    requires |w| >= 4 && AllSextets(w)
    requires FromSextets(w[4..]) == Some(tail)
    ensures FromSextets(w) == Some(JoinGroup(w[0], w[1], w[2], w[3]) + tail)
  {
  }

  lemma FirstThree(bytes: seq<byte>)
    requires |bytes| >= 3
    ensures bytes == [bytes[0], bytes[1], bytes[2]] + bytes[3..]
  {
  }

  /** One group of three bytes round-trips in front of a tail that does. */
  lemma GroupRoundTrip(bytes: seq<byte>)
    requires |bytes| >= 3
    requires FromSextets(ToSextets(bytes[3..])) == Some(bytes[3..])
    ensures FromSextets(ToSextets(bytes)) == Some(bytes)
  {
    var v := SplitGroup(bytes[0], bytes[1], bytes[2]);
    var w := ToSextets(bytes);
    EncodeGroup(bytes);
    assert w[4..] == ToSextets(bytes[3..]);
    assert w[0] == v[0] && w[1] == v[1] && w[2] == v[2] && w[3] == v[3];
    DecodeGroup(w, bytes[3..]);
    GroupArithmetic(bytes[0], bytes[1], bytes[2]);
    FirstThree(bytes);
  }

  lemma {:induction false} FromToSextets(bytes: seq<byte>)
    ensures FromSextets(ToSextets(bytes)) == Some(bytes)
    decreases |bytes|
  {
    if |bytes| == 0 {
    } else if |bytes| == 1 {
      OneByteRoundTrip(bytes[0]);
      assert bytes == [bytes[0]];
    } else if |bytes| == 2 {
      TwoBytesRoundTrip(bytes[0], bytes[1]);
      assert bytes == [bytes[0], bytes[1]];
    } else {
      FromToSextets(bytes[3..]);
      GroupRoundTrip(bytes);
    }
  }

  /** Decoding inverts encoding: the text of a key determines its random bytes. */
  lemma DecodeEncode(bytes: seq<byte>)
    ensures Decode(Encode(bytes)) == Some(bytes)
  {
    var v := ToSextets(bytes);
    var s := Encode(bytes);
    var w := seq(|s|, i requires 0 <= i < |s| => CharSextet(s[i]).value);
    forall i | 0 <= i < |s| ensures w[i] == v[i] {
      CharRoundTrip(v[i]);
    }
    assert w == v;
    FromToSextets(bytes);
  }

  /** Different random bytes always give different text. */
  lemma EncodeInjective(a: seq<byte>, b: seq<byte>)
    requires Encode(a) == Encode(b)
    ensures a == b
  {
    DecodeEncode(a);
    DecodeEncode(b);
  }
}
