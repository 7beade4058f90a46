/** The handlers of src/app/api/motor-specs/route.ts: recording a motor with
    its fields stored as given (falsy ones as null), without checking that the
    key exists, and listing all motors. */
module MotorSpecsRoute {
  import opened Common
  import opened Js
  import opened Schema
  import opened Http
  import opened KeyStore
  import Uuid
  import MotorsRoute

  datatype MotorSpecsBody =
    | SpecCreated(success: bool, data: MotorSpecRow)
    | SpecList(success: bool, rows: seq<MotorSpecRow>)
    | SpecError(error: string)
    /** A thrown error; the text of its details is not modelled. */
    | SpecFailure(error: string)

  /** `x || null`. */
  function OrNull(v: Option<JsonValue>): (r: Option<JsonValue>)
    ensures r.None? <==> !Truthy(v)
    ensures r.Some? ==> r == v
  {
    if Truthy(v) then v else None
  }

  /** The row the POST inserts: the apiKeyId and name as given, every optional
      field as given or null. */
  function SpecRowOf(id: string, body: JsonValue): MotorSpecRow
    requires Truthy(Property(body, "apiKeyId")) && Truthy(Property(body, "name"))
  {
    MotorSpecRow(
      id,
      Property(body, "apiKeyId").value,
      Property(body, "name").value,
      OrNull(Property(body, "description")),
      OrNull(Property(body, "monthlyPrice")),
      OrNull(Property(body, "fullyPaidPrice")),
      OrNull(Property(body, "frontView")),
      OrNull(Property(body, "sideView")),
      OrNull(Property(body, "backView")))
  }

  /** POST: a body that is not JSON, or is null, is a 500; a falsy apiKeyId or
      name is a 400; otherwise a row with a random UUID is appended and
      returned with 201, whatever the key table holds. */
  method Post(db: Database, body: Option<JsonValue>, random: seq<byte>) returns (resp: Response<MotorSpecsBody>)
    requires |random| == 16
    modifies db`motors
    ensures body.None? || body.value == JNull ==>
      resp == Response(StatusServerError, SpecFailure("Failed to create motor spec")) && db.motors == old(db.motors)
    ensures (body.Some? && body.value != JNull
      && (!Truthy(Property(body.value, "apiKeyId")) || !Truthy(Property(body.value, "name")))) ==>
      resp == Response(StatusBadRequest, SpecError("apiKeyId and motorName are required")) && db.motors == old(db.motors)
    ensures body.Some? && Truthy(Property(body.value, "apiKeyId")) && Truthy(Property(body.value, "name")) ==>
      var row := SpecRowOf(Uuid.RandomUuid(random), body.value);
      db.motors == old(db.motors) + [row] && resp == Response(StatusCreated, SpecCreated(true, row))
  {
    if body.None? || body.value == JNull {
      return Response(StatusServerError, SpecFailure("Failed to create motor spec"));
    }
    var b := body.value;
    if !Truthy(Property(b, "apiKeyId")) || !Truthy(Property(b, "name")) {
      return Response(StatusBadRequest, SpecError("apiKeyId and motorName are required"));
    }
    var row := SpecRowOf(Uuid.RandomUuid(random), b);
    db.InsertMotorSpec(row);
    resp := Response(StatusCreated, SpecCreated(true, row));
  }

  /** GET: every motor row, unfiltered. */
  function Get(motors: seq<MotorSpecRow>): (r: Response<MotorSpecsBody>)
    ensures r.status == StatusOk && r.body.SpecList? && r.body.success
    ensures multiset(r.body.rows) == multiset(motors)
  {
    Response(StatusOk, SpecList(true, motors))
  }

  /** The two motor routes store the same optional value exactly when it is
      null-like or a string without surrounding whitespace; a whitespace-only
      string is kept here but emptied by the trimming route. */
  lemma NormalisationsCompared(v: Option<JsonValue>, s: string)
    ensures !Truthy(v) ==> OrNull(v) == MotorsRoute.OptionalText(v) == None
    ensures v == Some(JString(s)) && s != "" && Trim(s) == s ==> OrNull(v) == MotorsRoute.OptionalText(v)
    ensures v == Some(JString(s)) && s != "" && AllWhitespace(s) ==>
      OrNull(v) == Some(JString(s)) && MotorsRoute.OptionalText(v) == Some(JString(""))
  {
    if v == Some(JString(s)) && s != "" && AllWhitespace(s) {
      MotorsRoute.WhitespaceStoredAsEmpty(s);
    }
  }
}
