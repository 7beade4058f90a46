/** The request schemas of src/server/validation.ts, as parsers from a parsed
    JSON body to either the normalised data or the list of validation issues,
    in the order the schema's keys are declared. */
module Validation {
  import opened Common
  import opened Js
  import opened Schema
  import Uuid

  /** The kinds of validation issue the schemas can raise. */
  datatype IssueCode =
    | InvalidType
    | TooSmall(minimum: nat, message: string)
    | TooBig(maximum: nat, message: string)
    | InvalidUnion
    | InvalidUuid

  /** One issue and the path of the offending value inside the body. */
  datatype Issue = Issue(path: seq<string>, code: IssueCode)

  const NameMin: nat := 1
  const NameMax: nat := 256

  /** The keys of the optional `hardwareSpecs` object, in declaration order. */
  const HardwareFields: seq<string> :=
    ["imageUrl", "brandname", "processor", "graphic", "display", "ram", "storage"]

  // ---------------------------------------------------------------------------
  // name

  /** The name rule: a string of 1 to 256 characters. */
  predicate ValidName(v: Option<JsonValue>) {
    v.Some? && v.value.JString? && NameMin <= |v.value.s| <= NameMax
  }

  /** The issues the name rule raises: a wrong type, or one length bound. */
  function NameIssues(v: Option<JsonValue>): (r: seq<Issue>)
    ensures r == [] <==> ValidName(v)
    ensures |r| <= 1
    ensures forall i :: 0 <= i < |r| ==> r[i].path == ["name"]
    ensures v.Some? && v.value.JString? && |v.value.s| < NameMin ==> r == [Issue(["name"], TooSmall(NameMin, "Name is required"))]
    ensures v.Some? && v.value.JString? && |v.value.s| > NameMax ==> r == [Issue(["name"], TooBig(NameMax, "Name too long"))]
  {
    if v.None? || !v.value.JString? then [Issue(["name"], InvalidType)]
    else if |v.value.s| < NameMin then [Issue(["name"], TooSmall(NameMin, "Name is required"))]
    else if |v.value.s| > NameMax then [Issue(["name"], TooBig(NameMax, "Name too long"))]
    else []
  }

  // ---------------------------------------------------------------------------
  // hardwareSpecs

  /** A hardware field may be absent or any string (the empty string included);
      every other value fails both branches of the union. */
  predicate FieldAccepted(v: Option<JsonValue>) {
    v.None? || v.value.JString?
  }

  /** `val || undefined`: the empty string becomes undefined, any other string
      is kept. */
  function NormalizeField(v: Option<string>): (r: Option<string>)
    ensures r.None? <==> v.None? || v.value == ""
    ensures r.Some? ==> r == v
  {
    if v == Some("") then None else v
  }

  /** Normalising an already normalised field changes nothing. */
  lemma NormalizeFieldIdempotent(v: Option<string>)
    ensures NormalizeField(NormalizeField(v)) == NormalizeField(v)
  {
  }

  /** The value an accepted field contributes to the parsed data. */
  function FieldValue(v: Option<JsonValue>): (r: Option<string>)
    requires FieldAccepted(v)
    ensures r.None? <==> v.None? || v.value == JString("")
    ensures r.Some? ==> v == Some(JString(r.value))
  {
    if v.None? then None else NormalizeField(Some(v.value.s))
  }

  /** The issues raised by the fields `names` of a hardwareSpecs object, one
      per rejected field, in order. */
  function FieldIssues(h: JsonValue, names: seq<string>): (r: seq<Issue>)
    ensures r == [] <==> forall k :: 0 <= k < |names| ==> FieldAccepted(Property(h, names[k]))
    ensures forall i :: 0 <= i < |r| ==>
      exists k :: (0 <= k < |names| && r[i] == Issue(["hardwareSpecs", names[k]], InvalidUnion)
        && !FieldAccepted(Property(h, names[k])))
    ensures |r| <= |names|
  {
    if names == [] then []
    else
      var here := if FieldAccepted(Property(h, names[0])) then []
                  else [Issue(["hardwareSpecs", names[0]], InvalidUnion)];
      var rest := FieldIssues(h, names[1..]);
      assert forall k :: 1 <= k < |names| ==> names[k] == names[1..][k - 1];
      here + rest
  }

  /** The hardwareSpecs rule: absent, or an object whose every field is accepted. */
  predicate HardwareAccepted(v: Option<JsonValue>) {
    v.None? || (v.value.JObject? && forall k :: 0 <= k < |HardwareFields| ==> FieldAccepted(Property(v.value, HardwareFields[k])))
  }

  /** `output` is what normalisation makes of the body value `input`. */
  predicate NormalizedFrom(input: Option<JsonValue>, output: Option<string>) {
    if input.None? || input.value == JString("") then output.None?
    else input.value.JString? && output == Some(input.value.s)
  }

  /** Every column of `h` is the normalised value of the same-named field. */
  predicate HardwareFrom(obj: JsonValue, h: KeyHardware) {
    && NormalizedFrom(Property(obj, "imageUrl"), h.imageUrl)
    && NormalizedFrom(Property(obj, "brandname"), h.brandname)
    && NormalizedFrom(Property(obj, "processor"), h.processor)
    && NormalizedFrom(Property(obj, "graphic"), h.graphic)
    && NormalizedFrom(Property(obj, "display"), h.display)
    && NormalizedFrom(Property(obj, "ram"), h.ram)
    && NormalizedFrom(Property(obj, "storage"), h.storage)
  }

  function ParseHardware(v: Option<JsonValue>): (r: Result<Option<KeyHardware>, seq<Issue>>)
    ensures r.Success? <==> HardwareAccepted(v)
    ensures r.Success? ==> (r.value.None? <==> v.None?)
    ensures r.Success? && r.value.Some? ==> HardwareFrom(v.value, r.value.value)
    ensures r.Failure? ==> r.error != []
    ensures r.Failure? && !v.value.JObject? ==> r.error == [Issue(["hardwareSpecs"], InvalidType)]
  {
    if v.None? then Success(None)
    else if !v.value.JObject? then Failure([Issue(["hardwareSpecs"], InvalidType)])
    else
      var h := v.value;
      var issues := FieldIssues(h, HardwareFields);
      if issues != [] then Failure(issues)
      else
        assert FieldAccepted(Property(h, HardwareFields[0]));
        assert FieldAccepted(Property(h, HardwareFields[1]));
        assert FieldAccepted(Property(h, HardwareFields[2]));
        assert FieldAccepted(Property(h, HardwareFields[3]));
        assert FieldAccepted(Property(h, HardwareFields[4]));
        assert FieldAccepted(Property(h, HardwareFields[5]));
        assert FieldAccepted(Property(h, HardwareFields[6]));
        Success(Some(KeyHardware(
          FieldValue(Property(h, "imageUrl")),
          FieldValue(Property(h, "brandname")),
          FieldValue(Property(h, "processor")),
          FieldValue(Property(h, "graphic")),
          FieldValue(Property(h, "display")),
          FieldValue(Property(h, "ram")),
          FieldValue(Property(h, "storage")))))
  }

  // ---------------------------------------------------------------------------
  // CreateKeySchema

  /** The data CreateKeySchema yields. */
  datatype CreateKeyInput = CreateKeyInput(name: string, hardwareSpecs: Option<KeyHardware>)

  /** A body CreateKeySchema accepts. Keys other than the declared ones are
      ignored (and dropped from the result). */
  predicate CreateKeyAccepted(body: JsonValue) {
    body.JObject? && ValidName(Property(body, "name")) && HardwareAccepted(Property(body, "hardwareSpecs"))
  }

  /** `CreateKeySchema.parse`: a non-object body is one type issue at the root;
      otherwise the name issues come first, then the hardwareSpecs issues. */
  function ParseCreateKey(body: JsonValue): (r: Result<CreateKeyInput, seq<Issue>>)
    ensures r.Success? <==> CreateKeyAccepted(body)
    ensures r.Success? ==> Property(body, "name") == Some(JString(r.value.name))
    ensures r.Success? ==> (r.value.hardwareSpecs.None? <==> Property(body, "hardwareSpecs").None?)
    ensures r.Success? && r.value.hardwareSpecs.Some? ==>
      HardwareFrom(Property(body, "hardwareSpecs").value, r.value.hardwareSpecs.value)
    ensures r.Failure? ==> r.error != []
    ensures r.Failure? && body.JObject? ==>
      r.error[..|NameIssues(Property(body, "name"))|] == NameIssues(Property(body, "name"))
    ensures !body.JObject? ==> r == Failure([Issue([], InvalidType)])
  {
    if !body.JObject? then Failure([Issue([], InvalidType)])
    else
      var nameValue := Property(body, "name");
      var nameIssues := NameIssues(nameValue);
      var hardware := ParseHardware(Property(body, "hardwareSpecs"));
      var hardwareIssues := if hardware.Failure? then hardware.error else [];
      if nameIssues != [] || hardwareIssues != [] then
        var all := nameIssues + hardwareIssues;
        assert all[..|nameIssues|] == nameIssues;
        Failure(all)
      else
        Success(CreateKeyInput(nameValue.value.s, hardware.value))
  }

  // ---------------------------------------------------------------------------
  // The name-only schema of the issuing route

  /** The name-only check the issuing route applies: CreateKeySchema's name
      rule, with every other key of the body ignored. */
  function ParseCreateApiKey(body: JsonValue): (r: Result<string, seq<Issue>>)
    ensures r.Success? <==> body.JObject? && ValidName(Property(body, "name"))
    ensures r.Success? ==> Property(body, "name") == Some(JString(r.value))
    ensures r.Failure? ==> r.error != []
  {
    if !body.JObject? then Failure([Issue([], InvalidType)])
    else
      var issues := NameIssues(Property(body, "name"));
      if issues == [] then Success(Property(body, "name").value.s) else Failure(issues)
  }

  /** Whatever CreateKeySchema accepts, the name-only check accepts with the
      same name; the converse fails only on a bad hardwareSpecs. */
  lemma NameOnlyIsWeaker(body: JsonValue)
    ensures ParseCreateKey(body).Success? ==> ParseCreateApiKey(body) == Success(ParseCreateKey(body).value.name)
    ensures ParseCreateApiKey(body).Success? && ParseCreateKey(body).Failure? ==>
      !HardwareAccepted(Property(body, "hardwareSpecs"))
  {
  }

  // ---------------------------------------------------------------------------
  // DeleteKeySchema

  /** `DeleteKeySchema.parse({ keyId })` for a string keyId: accepted exactly
      in the textual UUID layout. */
  function ParseDeleteKey(keyId: string): (r: Result<string, seq<Issue>>)
    ensures r.Success? <==> Uuid.IsUuid(keyId)
    ensures r.Success? ==> r.value == keyId
    ensures r.Failure? ==> r.error == [Issue(["keyId"], InvalidUuid)]
  {
    if Uuid.IsUuid(keyId) then Success(keyId) else Failure([Issue(["keyId"], InvalidUuid)])
  }

  /** Every id the key store generates passes DeleteKeySchema, so an issued
      key can always be addressed for revocation. */
  lemma GeneratedIdsAreDeletable(random: seq<byte>)
    requires |random| == 16
    ensures ParseDeleteKey(Uuid.RandomUuid(random)) == Success(Uuid.RandomUuid(random))
  {
  }
}
