/** The handler of src/app/api/echo/route.ts: validates a body against
    CreateKeySchema and echoes the normalised data, generating and storing
    nothing. */
module EchoRoute {
  import opened Common
  import opened Js
  import opened Schema
  import opened Http
  import opened Validation

  datatype EchoBody =
    | Echoed(message: string, data: CreateKeyInput)
    /** The validation issues; the nested shape `format()` gives them is not modelled. */
    | Rejected(message: string, errors: seq<Issue>)
    | Crashed(message: string)

  /** The hardware column a field name of the schema stands for. */
  function FieldOf(h: KeyHardware, key: string): Option<string> {
    if key == "imageUrl" then h.imageUrl
    else if key == "brandname" then h.brandname
    else if key == "processor" then h.processor
    else if key == "graphic" then h.graphic
    else if key == "display" then h.display
    else if key == "ram" then h.ram
    else if key == "storage" then h.storage
    else None
  }

  /** The JSON form of normalised hardware data: one property per defined
      field, as `JSON.stringify` drops undefined properties. */
  function HardwareJson(h: KeyHardware): JsonValue {
    JObject(map key | key in HardwareFields && FieldOf(h, key).Some? :: JString(FieldOf(h, key).value))
  }

  /** The JSON form of the echoed data. */
  function InputJson(x: CreateKeyInput): JsonValue {
    var named: map<string, JsonValue> := map["name" := JString(x.name)];
    if x.hardwareSpecs.Some? then JObject(named["hardwareSpecs" := HardwareJson(x.hardwareSpecs.value)])
    else JObject(named)
  }

  /** What CreateKeySchema can produce: a valid name, and hardware fields that
      are never the empty string. */
  predicate NormalForm(x: CreateKeyInput) {
    && ValidName(Some(JString(x.name)))
    && (x.hardwareSpecs.Some? ==>
      var h := x.hardwareSpecs.value;
      && h.imageUrl != Some("") && h.brandname != Some("") && h.processor != Some("")
      && h.graphic != Some("") && h.display != Some("") && h.ram != Some("") && h.storage != Some(""))
  }

  /** Each field of the JSON form reads back as the stored value. */
  lemma HardwareJsonField(h: KeyHardware, k: nat)
    requires k < |HardwareFields|
    ensures var v := FieldOf(h, HardwareFields[k]);
      Property(HardwareJson(h), HardwareFields[k]) == (if v.Some? then Some(JString(v.value)) else None)
  {
  }

  /** The schema's output is in normal form. */
  lemma ParsedIsNormal(body: JsonValue)
    requires ParseCreateKey(body).Success?
    ensures NormalForm(ParseCreateKey(body).value)
  {
  }

  /** The hardware part of data in normal form survives a round trip through
      its JSON form. */
  lemma HardwareReparses(h: KeyHardware)
    requires forall k :: 0 <= k < |HardwareFields| ==> FieldOf(h, HardwareFields[k]) != Some("")
    ensures ParseHardware(Some(HardwareJson(h))) == Success(Some(h))
  {
    var o := HardwareJson(h);
    forall k | 0 <= k < |HardwareFields|
      ensures FieldAccepted(Property(o, HardwareFields[k]))
      ensures NormalizedFrom(Property(o, HardwareFields[k]), FieldOf(h, HardwareFields[k]))
    {
      HardwareJsonField(h, k);
    }
    var p := ParseHardware(Some(o));
    assert p.Success?;
    var ph := p.value.value;
    NormalizedUnique(Property(o, HardwareFields[0]), ph.imageUrl, h.imageUrl);
    NormalizedUnique(Property(o, HardwareFields[1]), ph.brandname, h.brandname);
    NormalizedUnique(Property(o, HardwareFields[2]), ph.processor, h.processor);
    NormalizedUnique(Property(o, HardwareFields[3]), ph.graphic, h.graphic);
    NormalizedUnique(Property(o, HardwareFields[4]), ph.display, h.display);
    NormalizedUnique(Property(o, HardwareFields[5]), ph.ram, h.ram);
    NormalizedUnique(Property(o, HardwareFields[6]), ph.storage, h.storage);
  }

  /** A body value normalises to one output only. */
  lemma NormalizedUnique(input: Option<JsonValue>, a: Option<string>, b: Option<string>)
    requires NormalizedFrom(input, a) && NormalizedFrom(input, b)
    ensures a == b
  {
  }

  /** Data in normal form survives a round trip through its JSON form. */
  lemma EchoedDataReparses(x: CreateKeyInput)
    requires NormalForm(x)
    ensures ParseCreateKey(InputJson(x)) == Success(x)
  {
    var j := InputJson(x);
    assert Property(j, "name") == Some(JString(x.name));
    if x.hardwareSpecs.Some? {
      assert Property(j, "hardwareSpecs") == Some(HardwareJson(x.hardwareSpecs.value));
      HardwareReparses(x.hardwareSpecs.value);
    } else {
      assert Property(j, "hardwareSpecs") == None;
    }
  }

  /** POST: a body that is not JSON is a 500; a body failing CreateKeySchema is
      a 400 with the issues; otherwise 200 "Key created!" with the normalised
      data, which re-parses to itself. */
  function Post(body: Option<JsonValue>): (r: Response<EchoBody>)
    ensures body.None? <==> r == Response(StatusServerError, Crashed("Internal server error"))
    ensures r.status == StatusOk <==> body.Some? && CreateKeyAccepted(body.value)
    ensures r.status == StatusBadRequest <==> body.Some? && !CreateKeyAccepted(body.value)
    ensures r.status == StatusBadRequest ==> r.body.Rejected? && r.body.message == "Validation failed" && r.body.errors != []
    ensures r.status == StatusBadRequest ==>
      ParseCreateKey(body.value).Failure? && r.body.errors == ParseCreateKey(body.value).error
    ensures r.status == StatusOk ==>
      ParseCreateKey(body.value).Success? && r.body == Echoed("Key created!", ParseCreateKey(body.value).value)
    ensures r.status == StatusOk ==>
      && r.body.Echoed? && r.body.message == "Key created!"
      && Property(body.value, "name") == Some(JString(r.body.data.name))
      && ParseCreateKey(InputJson(r.body.data)) == Success(r.body.data)
  {
    if body.None? then Response(StatusServerError, Crashed("Internal server error"))
    else
      var parsed := ParseCreateKey(body.value);
      if parsed.Failure? then Response(StatusBadRequest, Rejected("Validation failed", parsed.error))
      else
        ParsedIsNormal(body.value);
        EchoedDataReparses(parsed.value);
        Response(StatusOk, Echoed("Key created!", parsed.value))
  }

  /** Posting the echoed data back gets the same answer. */
  lemma EchoIsIdempotent(body: JsonValue)
    requires Post(Some(body)).status == StatusOk
    ensures Post(Some(InputJson(Post(Some(body)).body.data))) == Post(Some(body))
  {
  }
}
