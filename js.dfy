/** The JavaScript value semantics the route handlers rely on: parsed JSON
    request bodies, truthiness, `String(x)` and `String.prototype.trim`. */
module Js {
  import opened Common

  /** A parsed JSON value. Numbers are modelled as integers. */
  datatype JsonValue =
    | JNull
    | JBool(b: bool)
    | JNumber(n: int)
    | JString(s: string)
    | JArray(items: seq<JsonValue>)
    | JObject(fields: map<string, JsonValue>)

  /** `body.key` after destructuring: None stands for `undefined`, which is
      what every property of a non-object (string, number, array, ...) reads as. */
  function Property(body: JsonValue, key: string): (r: Option<JsonValue>)
    ensures r.Some? <==> body.JObject? && key in body.fields
    ensures r.Some? ==> r.value == body.fields[key]
  {
    if body.JObject? && key in body.fields then Some(body.fields[key]) else None
  }

  /** The falsy JSON values: null, false, 0 and the empty string. */
  predicate IsFalsyValue(v: JsonValue) {
    v == JNull || v == JBool(false) || v == JNumber(0) || v == JString("")
  }

  /** `!!x` for a property that may be `undefined`. */
  predicate Truthy(x: Option<JsonValue>) {
    x.Some? && !IsFalsyValue(x.value)
  }

  function DigitChar(d: nat): (c: char)
    requires d < 10
    ensures '0' <= c <= '9'
  {
    ('0' as int + d) as char
  }

  /** Decimal digits of a natural number, without leading zeros. */
  function NatToDecimal(n: nat): (s: string)
    ensures |s| >= 1
    ensures forall i :: 0 <= i < |s| ==> '0' <= s[i] <= '9'
    ensures |s| > 1 ==> s[0] != '0'
  {
    if n < 10 then [DigitChar(n)] else NatToDecimal(n / 10) + [DigitChar(n % 10)]
  }

  /** `String(n)` for an integer. */
  function IntToDecimal(n: int): (s: string)
    ensures |s| >= 1
  {
    if n < 0 then "-" + NatToDecimal(-n) else NatToDecimal(n)
  }

  /** `parts.join(",")`. */
  function JoinWithCommas(parts: seq<string>): string {
    if parts == [] then ""
    else if |parts| == 1 then parts[0]
    else parts[0] + "," + JoinWithCommas(parts[1..])
  }

  /** `String(x)`: strings unchanged, numbers in decimal, arrays joined with
      commas (a null element gives the empty string), plain objects as
      "[object Object]". */
  function ToJsString(v: JsonValue): (s: string)
    ensures v.JString? ==> s == v.s
    decreases v
  {
    match v
    case JNull => "null"
    case JBool(b) => if b then "true" else "false"
    case JNumber(n) => IntToDecimal(n)
    case JString(t) => t
    case JArray(items) =>
      JoinWithCommas(seq(|items|, i requires 0 <= i < |items| =>
        if items[i] == JNull then "" else ToJsString(items[i])))
    case JObject(_) => "[object Object]"
  }

  /** WhiteSpace and LineTerminator code points of ECMAScript, which `trim`
      removes from both ends. */
  predicate IsJsWhitespace(c: char) {
    var u := c as int;
    || (0x09 <= u <= 0x0D) || u == 0x20 || u == 0xA0 || u == 0x1680
    || (0x2000 <= u <= 0x200A) || u == 0x2028 || u == 0x2029 || u == 0x202F
    || u == 0x205F || u == 0x3000 || u == 0xFEFF
  }

  predicate AllWhitespace(s: string) {
    forall i :: 0 <= i < |s| ==> IsJsWhitespace(s[i])
  }

  /** The first position at or after `k` whose character does not satisfy
      `p`, or `|s|` when there is none. */
  function SkipForward(s: string, p: char -> bool, k: nat): (n: nat)
    requires k <= |s|
    ensures k <= n <= |s|
    ensures forall m :: k <= m < n ==> p(s[m])
    ensures n == |s| || !p(s[n])
    decreases |s| - k
  {
    if k < |s| && p(s[k]) then SkipForward(s, p, k + 1) else k
  }

  /** The position just past the last character before `j` that does not
      satisfy `p`, going no lower than `lo`. */
  function SkipBackward(s: string, p: char -> bool, lo: nat, j: nat): (n: nat)
    requires lo <= j <= |s|
    ensures lo <= n <= j
    ensures forall m :: n <= m < j ==> p(s[m])
    ensures n == lo || !p(s[n - 1])
    decreases j
  {
    if lo < j && p(s[j - 1]) then SkipBackward(s, p, lo, j - 1) else j
  }

  /** When `p` holds before `i` and from `j` on, it holds throughout the
      prefix cut at `i` and the suffix cut at `j`. */
  lemma OuterParts(s: string, p: char -> bool, i: nat, j: nat)
    requires i <= j <= |s|
    requires forall m :: 0 <= m < i ==> p(s[m])
    requires forall m :: j <= m < |s| ==> p(s[m])
    ensures forall k :: 0 <= k < i ==> p(s[..i][k])
    ensures forall k :: 0 <= k < |s| - j ==> p(s[j..][k])
  {
    forall k | 0 <= k < |s| - j ensures p(s[j..][k]) {
      assert s[j..][k] == s[j + k];
    }
  }

  /** `s.trim()`: the part of `s` between its leading and trailing whitespace. */
  function Trim(s: string): (r: string)
    ensures exists i :: (0 <= i <= |s| - |r| && r == s[i..i + |r|]
      && AllWhitespace(s[..i]) && AllWhitespace(s[i + |r|..]))
    ensures r == [] || (!IsJsWhitespace(r[0]) && !IsJsWhitespace(r[|r| - 1]))
  {
    var i := SkipForward(s, IsJsWhitespace, 0);
    var j := SkipBackward(s, IsJsWhitespace, i, |s|);
    OuterParts(s, IsJsWhitespace, i, j);
    assert AllWhitespace(s[..i]) && AllWhitespace(s[j..]);
    assert s[i..j] == s[i..i + |s[i..j]|];
    s[i..j]
  }

  /** Trimming yields the empty string exactly for an all-whitespace input. */
  lemma TrimEmptyIffBlank(s: string)
    ensures Trim(s) == "" <==> AllWhitespace(s)
  {
    var i := SkipForward(s, IsJsWhitespace, 0);
    var j := SkipBackward(s, IsJsWhitespace, i, |s|);
    assert Trim(s) == s[i..j];
    if AllWhitespace(s) {
      assert i == |s|;
    }
    if i == j {
      forall k | 0 <= k < |s| ensures IsJsWhitespace(s[k]) {
      }
    }
  }

  /** Trimming twice changes nothing. */
  lemma TrimIdempotent(s: string)
    ensures Trim(Trim(s)) == Trim(s)
  {
    var r := Trim(s);
    if r != [] {
      assert SkipForward(r, IsJsWhitespace, 0) == 0;
      assert SkipBackward(r, IsJsWhitespace, 0, |r|) == |r|;
      assert r[0..|r|] == r;
    }
  }
}
