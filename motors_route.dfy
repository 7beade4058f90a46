/** The handlers of src/app/api/motors/routes.ts: recording a motor for an
    existing key, with its text fields trimmed, and listing all motors. */
module MotorsRoute {
  import opened Common
  import opened Js
  import opened Schema
  import opened Http
  import opened KeyStore

  datatype MotorsBody =
    | MotorCreated(success: bool, motor: MotorSpecRow)
    | MotorList(success: bool, motors: seq<MotorSpecRow>)
    | MotorError(error: string)
    /** A thrown error; its message text is not modelled. */
    | Thrown

  /** `String(x).trim()`. */
  function TrimmedText(v: JsonValue): (r: JsonValue)
    ensures r.JString? && r.s == Trim(ToJsString(v))
  {
    JString(Trim(ToJsString(v)))
  }

  /** `x ? String(x).trim() : null`. */
  function OptionalText(v: Option<JsonValue>): (r: Option<JsonValue>)
    ensures r.None? <==> !Truthy(v)
    ensures r.Some? ==> r.value.JString? && r.value.s == Trim(ToJsString(v.value))
  {
    if Truthy(v) then Some(TrimmedText(v.value)) else None
  }

  /** A whitespace-only field is truthy, so it is stored as the empty string
      rather than as null. */
  lemma WhitespaceStoredAsEmpty(s: string)
    requires s != "" && AllWhitespace(s)
    ensures OptionalText(Some(JString(s))) == Some(JString(""))
  {
    TrimEmptyIffBlank(s);
  }

  /** A stored optional text never starts or ends with whitespace, and storing
      it again would not change it. */
  lemma StoredTextIsTrimmed(v: Option<JsonValue>)
    requires OptionalText(v).Some?
    ensures var t := OptionalText(v).value.s;
      (t == [] || (!IsJsWhitespace(t[0]) && !IsJsWhitespace(t[|t| - 1])))
      && Trim(t) == t
  {
    TrimIdempotent(ToJsString(v.value));
  }

  /** The text the database driver sends for the `apiKeyId` parameter of the
      existence lookup: scalars as `String(x)`. Arrays and objects are sent as
      array and JSON literals, which start with a brace and so never equal a
      generated UUID; they are modelled as matching no row. */
  function ParamText(v: JsonValue): (r: Option<string>)
    ensures v.JString? ==> r == Some(v.s)
    ensures v.JArray? || v.JObject? ==> r.None?
  {
    if v.JArray? || v.JObject? then None else Some(ToJsString(v))
  }

  /** `select ... where apiKeys.id = apiKeyId limit 1` finds a row. */
  predicate KeyExists(keys: seq<ApiKeyRow>, apiKeyId: JsonValue) {
    ParamText(apiKeyId).Some? && HasId(keys, ParamText(apiKeyId).value)
  }

  /** The row the POST inserts: the given id, the raw apiKeyId, the trimmed
      motor name and each optional field trimmed or null. */
  function MotorRow(id: string, body: JsonValue): MotorSpecRow
    requires Truthy(Property(body, "motorName"))
  {
    MotorSpecRow(
      id,
      Property(body, "apiKeyId").GetOr(JNull),
      TrimmedText(Property(body, "motorName").value),
      OptionalText(Property(body, "description")),
      OptionalText(Property(body, "monthlyPrice")),
      OptionalText(Property(body, "fullyPaidPrice")),
      OptionalText(Property(body, "frontView")),
      OptionalText(Property(body, "sideView")),
      OptionalText(Property(body, "backView")))
  }

  /** POST: a body that is not JSON, or is null, makes destructuring throw (500);
      a falsy apiKeyId or motorName is a 400; an apiKeyId naming no key
      (revoked or not) is a 404; otherwise one row is appended under the fresh
      id `id` and returned with 201. */
  method Post(db: Database, body: Option<JsonValue>, id: string) returns (resp: Response<MotorsBody>)
    modifies db`motors
    ensures body.None? || body.value == JNull ==>
      resp == Response(StatusServerError, Thrown) && db.motors == old(db.motors)
    ensures (body.Some? && body.value != JNull
      && (!Truthy(Property(body.value, "apiKeyId")) || !Truthy(Property(body.value, "motorName")))) ==>
      resp == Response(StatusBadRequest, MotorError("apiKeyId and motorName required")) && db.motors == old(db.motors)
    ensures body.Some? && Truthy(Property(body.value, "apiKeyId")) && Truthy(Property(body.value, "motorName")) ==>
      if KeyExists(db.keys, Property(body.value, "apiKeyId").value) then
        && db.motors == old(db.motors) + [MotorRow(id, body.value)]
        && resp == Response(StatusCreated, MotorCreated(true, MotorRow(id, body.value)))
      else
        resp == Response(StatusNotFound, MotorError("API key not found")) && db.motors == old(db.motors)
  {
    if body.None? || body.value == JNull {
      return Response(StatusServerError, Thrown);
    }
    var b := body.value;
    if !Truthy(Property(b, "apiKeyId")) || !Truthy(Property(b, "motorName")) {
      return Response(StatusBadRequest, MotorError("apiKeyId and motorName required"));
    }
    if !KeyExists(db.keys, Property(b, "apiKeyId").value) {
      return Response(StatusNotFound, MotorError("API key not found"));
    }
    var row := MotorRow(id, b);
    db.InsertMotorSpec(row);
    resp := Response(StatusCreated, MotorCreated(true, row));
  }

  /** GET: every motor row, unfiltered. */
  function Get(motors: seq<MotorSpecRow>): (r: Response<MotorsBody>)
    ensures r.status == StatusOk && r.body.MotorList? && r.body.success
    ensures multiset(r.body.motors) == multiset(motors)
  {
    Response(StatusOk, MotorList(true, motors))
  }
}
