/** Textual UUIDs: the 8-4-4-4-12 hexadecimal layout of section 3 of RFC 4122
    that the key-id validator accepts, and the version-4 identifiers that
    `randomUUID` produces from 16 random bytes (section 4.4 of RFC 4122). */
module Uuid {
  import opened Common

  /** A hexadecimal digit in either case (the validator matches case-insensitively). */
  predicate IsHexDigit(c: char) {
    ('0' <= c <= '9') || ('a' <= c <= 'f') || ('A' <= c <= 'F')
  }

  /** Positions 8, 13, 18 and 23 separate the five groups of a textual UUID. */
  predicate IsHyphenPosition(i: int) {
    i == 8 || i == 13 || i == 18 || i == 23
  }

  /** The layout the key-id validator accepts. */
  predicate IsUuid(s: string) {
    && |s| == 36
    && forall i :: 0 <= i < |s| ==> if IsHyphenPosition(i) then s[i] == '-' else IsHexDigit(s[i])
  }

  function HexDigit(n: nat): (c: char)
    requires n < 16
    ensures IsHexDigit(c)
  {
    if n < 10 then ('0' as int + n) as char else ('a' as int + (n - 10)) as char
  }

  /** Two lower-case hexadecimal digits per byte, high nibble first. */
  function Hex(bytes: seq<byte>): (s: string)
    ensures |s| == 2 * |bytes|
    ensures forall i :: 0 <= i < |s| ==> IsHexDigit(s[i])
  {
    if bytes == [] then ""
    else [HexDigit(bytes[0] / 16), HexDigit(bytes[0] % 16)] + Hex(bytes[1..])
  }

  /** A version-4 UUID: byte 6 carries version 4 in its high nibble and byte 8
      the variant bits 10, the rest are the random bytes. */
  function RandomUuid(random: seq<byte>): (s: string)
    requires |random| == 16
    ensures IsUuid(s)
    ensures s[14] == '4'
    ensures s[19] == '8' || s[19] == '9' || s[19] == 'a' || s[19] == 'b'
  {
    var b := random[6 := random[6] % 16 + 64][8 := random[8] % 64 + 128];
    var s := Hex(b[..4]) + "-" + Hex(b[4..6]) + "-" + Hex(b[6..8]) + "-" + Hex(b[8..10]) + "-" + Hex(b[10..]);
    assert s[14] == HexDigit(b[6] / 16);
    assert s[19] == HexDigit(b[8] / 16);
    s
  }
}
