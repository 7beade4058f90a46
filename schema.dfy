/** The stored records: the apiKeys table of src/server/db/schema.ts, and the
    hardwareSpecs and motorSpecs tables that src/server/keys.ts and the motor
    routes import and write. src/server/db/schema.ts declares neither of these
    two, so their columns are assumed to be exactly those the writing code
    uses. */
module Schema {
  import opened Common
  import opened Js

  /** Length caps of the varchar columns of apiKeys. */
  const Last4Cap: nat := 4
  const BrandnameCap: nat := 100
  const ProcessorCap: nat := 200
  const GraphicCap: nat := 200
  const DisplayCap: nat := 150
  const RamCap: nat := 50
  const StorageCap: nat := 100

  /** The nullable descriptive columns of apiKeys. */
  datatype KeyHardware = KeyHardware(
    imageUrl: Option<string>,
    brandname: Option<string>,
    processor: Option<string>,
    graphic: Option<string>,
    display: Option<string>,
    ram: Option<string>,
    storage: Option<string>)

  const NoHardware := KeyHardware(None, None, None, None, None, None, None)

  /** One row of apiKeys. The plaintext key has no column: only its digest and
      its last four characters are stored. `name` is written by insertKey
      although the schema file declares no such column. `createdAt` is a
      reading of a natural-number clock. */
  datatype ApiKeyRow = ApiKeyRow(
    id: string,
    name: string,
    hashedKey: string,
    last4: string,
    createdAt: nat,
    revoked: bool,
    hardware: KeyHardware)

  /** The metadata columns of a hardwareSpecs row (`HardwareSpecs` in keys.ts). */
  datatype HardwareSpecs = HardwareSpecs(
    frontView: Option<string>,
    sideView: Option<string>,
    backView: Option<string>,
    description: Option<string>,
    monthlyPrice: Option<string>,
    fullyPaidPrice: Option<string>)

  /** What a left join yields for a key without a spec row: every column null. */
  const NoSpecs := HardwareSpecs(None, None, None, None, None, None)

  /** One row of hardwareSpecs, linked to a key by `apiKeyId`. */
  datatype SpecRow = SpecRow(id: string, apiKeyId: string, specs: HardwareSpecs)

  /** One row of motorSpecs. The handlers store request values of any JSON
      type, so the columns hold JSON values; None is SQL null. */
  datatype MotorSpecRow = MotorSpecRow(
    id: string,
    apiKeyId: JsonValue,
    motorName: JsonValue,
    description: Option<JsonValue>,
    monthlyPrice: Option<JsonValue>,
    fullyPaidPrice: Option<JsonValue>,
    frontView: Option<JsonValue>,
    sideView: Option<JsonValue>,
    backView: Option<JsonValue>)

  predicate WithinCap(v: Option<string>, cap: nat) {
    v.None? || |v.value| <= cap
  }

  /** Every optional hardware column respects its varchar length. */
  predicate HardwareValid(h: KeyHardware) {
    && WithinCap(h.brandname, BrandnameCap)
    && WithinCap(h.processor, ProcessorCap)
    && WithinCap(h.graphic, GraphicCap)
    && WithinCap(h.display, DisplayCap)
    && WithinCap(h.ram, RamCap)
    && WithinCap(h.storage, StorageCap)
  }

  /** The column constraints of one apiKeys row. */
  predicate RowValid(r: ApiKeyRow) {
    |r.last4| <= Last4Cap && HardwareValid(r.hardware)
  }

  /** `id` is the primary key: no two rows share it. */
  predicate UniqueIds(keys: seq<ApiKeyRow>) {
    forall i, j :: 0 <= i < j < |keys| ==> keys[i].id != keys[j].id
  }

  predicate HasId(keys: seq<ApiKeyRow>, id: string) {
    exists i :: 0 <= i < |keys| && keys[i].id == id
  }

  /** The row an insert of (id, name, hashedKey, last4) creates: createdAt
      takes the current time and revoked its default false; the hardware
      columns are left null. */
  function NewKeyRow(id: string, name: string, hashedKey: string, last4: string, now: nat): (r: ApiKeyRow)
    ensures r.createdAt == now && !r.revoked
    ensures r.hardware == NoHardware
    ensures RowValid(r) <==> |last4| <= Last4Cap
  {
    ApiKeyRow(id, name, hashedKey, last4, now, false, NoHardware)
  }
}
