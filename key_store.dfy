/** The API-key lifecycle of src/server/keys.ts over in-memory tables: the
    read-only queries (`listKeys`, `getKeyDetails`, `verifyKey`) as functions
    of the table contents, and the updates (`insertKey`, `revokeKey`,
    `updateKeySpecs`) as methods of a `Database` whose fields are the tables.
    Tables are sequences in physical row order; a query with `limit(1)` and no
    ordering returns the first matching row in that order. */
module KeyStore {
  import opened Common
  import opened Schema
  import opened Js
  import KeyCodec
  import Uuid

  // ---------------------------------------------------------------------------
  // The left join of apiKeys with hardwareSpecs

  /** The spec columns of every hardwareSpecs row of one key, in table order. */
  function SpecsFor(specs: seq<SpecRow>, keyId: string): (r: seq<HardwareSpecs>)
    ensures forall x :: x in r <==> exists j :: 0 <= j < |specs| && specs[j].apiKeyId == keyId && specs[j].specs == x
    ensures r == [] <==> forall j :: 0 <= j < |specs| ==> specs[j].apiKeyId != keyId
    ensures |r| == CountSpecs(specs, keyId)
  {
    if specs == [] then []
    else (if specs[0].apiKeyId == keyId then [specs[0].specs] else []) + SpecsFor(specs[1..], keyId)
  }

  /** The spec columns a `limit(1)` lookup through the left join sees: the
      first spec row of the key, or all nulls when it has none. */
  function FirstSpecs(specs: seq<SpecRow>, keyId: string): HardwareSpecs {
    var m := SpecsFor(specs, keyId);
    if m == [] then NoSpecs else m[0]
  }

  /** The spec columns a joined row may carry for key `keyId`: those of one of
      its spec rows, or all nulls when it has none. */
  predicate JoinedSpecs(specs: seq<SpecRow>, keyId: string, s: HardwareSpecs) {
    var m := SpecsFor(specs, keyId);
    (m == [] && s == NoSpecs) || s in m
  }

  datatype JoinedRow = JoinedRow(key: ApiKeyRow, specs: HardwareSpecs)

  /** The joined rows of one key: one per spec row, or one with nulls. */
  function JoinKey(k: ApiKeyRow, specs: seq<SpecRow>): (r: seq<JoinedRow>)
    ensures |r| >= 1
    ensures forall j :: 0 <= j < |r| ==> r[j].key == k && JoinedSpecs(specs, k.id, r[j].specs)
    ensures |r| == if SpecsFor(specs, k.id) == [] then 1 else |SpecsFor(specs, k.id)|
    ensures SpecsFor(specs, k.id) != [] ==> forall j :: 0 <= j < |r| ==> r[j].specs == SpecsFor(specs, k.id)[j]
  {
    var m := SpecsFor(specs, k.id);
    if m == [] then [JoinedRow(k, NoSpecs)]
    else seq(|m|, i requires 0 <= i < |m| => JoinedRow(k, m[i]))
  }

  /** `apiKeys LEFT JOIN hardwareSpecs ON apiKeys.id = hardwareSpecs.apiKeyId`,
      in apiKeys order. */
  function LeftJoin(keys: seq<ApiKeyRow>, specs: seq<SpecRow>): seq<JoinedRow> {
    if keys == [] then [] else JoinKey(keys[0], specs) + LeftJoin(keys[1..], specs)
  }

  /** Every joined row pairs a key row with one of its spec rows (or nulls). */
  lemma {:induction false} LeftJoinRows(keys: seq<ApiKeyRow>, specs: seq<SpecRow>)
    ensures forall j :: 0 <= j < |LeftJoin(keys, specs)| ==>
      LeftJoin(keys, specs)[j].key in keys
      && JoinedSpecs(specs, LeftJoin(keys, specs)[j].key.id, LeftJoin(keys, specs)[j].specs)
  {
    if keys != [] {
      LeftJoinRows(keys[1..], specs);
      var here := JoinKey(keys[0], specs);
      var rest := LeftJoin(keys[1..], specs);
      var r := here + rest;
      forall j | 0 <= j < |here| ensures r[j].key in keys && JoinedSpecs(specs, r[j].key.id, r[j].specs) {
        assert r[j] == here[j];
      }
      forall j | |here| <= j < |r| ensures r[j].key in keys && JoinedSpecs(specs, r[j].key.id, r[j].specs) {
        var row := rest[j - |here|];
        assert r[j] == row;
        TailMember(keys, row.key);
      }
      assert r == LeftJoin(keys, specs);
    }
  }

  /** A member of the tail is a member of the sequence. */
  lemma TailMember<T>(s: seq<T>, x: T)
    requires s != [] && x in s[1..]
    ensures x in s
  {
    var n := PositionOf(s[1..], x);
    assert s[n + 1] == x;
  }

  /** Every key row appears in the join, with or without spec rows. */
  lemma {:induction false} LeftJoinCovers(keys: seq<ApiKeyRow>, specs: seq<SpecRow>)
    ensures forall i :: 0 <= i < |keys| ==> exists j :: 0 <= j < |LeftJoin(keys, specs)| && LeftJoin(keys, specs)[j].key == keys[i]
  {
    if keys != [] {
      LeftJoinCovers(keys[1..], specs);
      var here := JoinKey(keys[0], specs);
      var rest := LeftJoin(keys[1..], specs);
      var r := here + rest;
      forall i | 0 <= i < |keys| ensures exists j :: 0 <= j < |r| && r[j].key == keys[i] {
        if i == 0 {
          assert r[0].key == keys[0];
        } else {
          assert keys[i] == keys[1..][i - 1];
          var j :| 0 <= j < |rest| && rest[j].key == keys[1..][i - 1];
          assert r[|here| + j] == rest[j];
        }
      }
      assert r == LeftJoin(keys, specs);
    }
  }

  // ---------------------------------------------------------------------------
  // listKeys

  /** One item of `listKeys`: every selected column except the digest. */
  datatype ListedKey = ListedKey(
    id: string,
    name: string,
    last4: string,
    createdAt: nat,
    revoked: bool,
    specs: HardwareSpecs)

  /** The listed item shows exactly this key row's columns. */
  predicate Lists(x: ListedKey, k: ApiKeyRow) {
    x.id == k.id && x.name == k.name && x.last4 == k.last4
    && x.createdAt == k.createdAt && x.revoked == k.revoked
  }

  function Listed(j: JoinedRow): (x: ListedKey)
    ensures Lists(x, j.key) && x.specs == j.specs
  {
    ListedKey(j.key.id, j.key.name, j.key.last4, j.key.createdAt, j.key.revoked, j.specs)
  }

  /** `where(eq(apiKeys.revoked, false))` followed by the projection. */
  function Active(rows: seq<JoinedRow>): (r: seq<ListedKey>)
    ensures forall x :: x in r ==> exists j :: 0 <= j < |rows| && !rows[j].key.revoked && x == Listed(rows[j])
    ensures forall j :: 0 <= j < |rows| && !rows[j].key.revoked ==> Listed(rows[j]) in r
    ensures |r| == CountActive(rows)
  {
    if rows == [] then []
    else
      var rest := Active(rows[1..]);
      assert forall j :: 1 <= j < |rows| ==> rows[j] == rows[1..][j - 1];
      (if rows[0].key.revoked then [] else [Listed(rows[0])]) + rest
  }

  /** The number of joined rows whose key is not revoked. */
  function CountActive(rows: seq<JoinedRow>): nat {
    if rows == [] then 0 else (if rows[0].key.revoked then 0 else 1) + CountActive(rows[1..])
  }

  /** `orderBy(desc(apiKeys.createdAt))`. */
  predicate NewestFirst(s: seq<ListedKey>) {
    forall i, j :: 0 <= i < j < |s| ==> s[i].createdAt >= s[j].createdAt
  }

  /** Putting an item no older than the head in front keeps the order. */
  lemma ConsNewestFirst(y: ListedKey, s: seq<ListedKey>)
    requires NewestFirst(s)
    requires s == [] || y.createdAt >= s[0].createdAt
    ensures NewestFirst([y] + s)
  {
    var r := [y] + s;
    forall i, j | 0 <= i < j < |r| ensures r[i].createdAt >= r[j].createdAt {
      if i == 0 {
        assert r[j] == s[j - 1];
        if j > 1 { assert s[0].createdAt >= s[j - 1].createdAt; }
      } else {
        assert r[i] == s[i - 1] && r[j] == s[j - 1];
      }
    }
  }

  /** Inserts one item into a newest-first sequence. */
  function InsertNewestFirst(x: ListedKey, s: seq<ListedKey>): (r: seq<ListedKey>)
    requires NewestFirst(s)
    ensures NewestFirst(r)
    ensures multiset(r) == multiset(s) + multiset{x}
    ensures |r| == |s| + 1 && (r[0] == x || (s != [] && r[0] == s[0]))
  {
    if s == [] || x.createdAt >= s[0].createdAt then
      ConsNewestFirst(x, s);
      [x] + s
    else
      var rest := InsertNewestFirst(x, s[1..]);
      assert s == [s[0]] + s[1..];
      assert multiset([s[0]] + rest) == multiset{s[0]} + multiset(rest);
      assert |s| > 1 ==> s[1..][0] == s[1] && s[0].createdAt >= s[1].createdAt;
      ConsNewestFirst(s[0], rest);
      [s[0]] + rest
  }

  /** An insertion sort on createdAt, newest first. SQL leaves the order of
      rows with equal timestamps open; this is one admissible order. */
  function SortNewestFirst(s: seq<ListedKey>): (r: seq<ListedKey>)
    ensures NewestFirst(r)
    ensures multiset(r) == multiset(s)
  {
    if s == [] then []
    else
      assert s == [s[0]] + s[1..];
      InsertNewestFirst(s[0], SortNewestFirst(s[1..]))
  }

  lemma SortKeepsMembers(s: seq<ListedKey>)
    ensures forall x :: x in SortNewestFirst(s) <==> x in s
  {
    var r := SortNewestFirst(s);
    forall x ensures x in r <==> x in s {
      assert x in r <==> x in multiset(r);
      assert x in s <==> x in multiset(s);
    }
  }

  /** Every non-revoked row of the join shows a non-revoked key row. */
  lemma ActiveFromKeys(keys: seq<ApiKeyRow>, specs: seq<SpecRow>)
    ensures forall x :: x in Active(LeftJoin(keys, specs)) ==>
      !x.revoked && JoinedSpecs(specs, x.id, x.specs) && exists i :: 0 <= i < |keys| && Lists(x, keys[i])
  {
    var rows := LeftJoin(keys, specs);
    LeftJoinRows(keys, specs);
    forall x | x in Active(rows)
      ensures !x.revoked && JoinedSpecs(specs, x.id, x.specs) && exists i :: 0 <= i < |keys| && Lists(x, keys[i])
    {
      var j :| 0 <= j < |rows| && !rows[j].key.revoked && x == Listed(rows[j]);
      var row := rows[j];
      assert row.key in keys;
      var i :| 0 <= i < |keys| && keys[i] == row.key;
      assert Lists(x, keys[i]);
    }
  }

  /** Every non-revoked key row is shown by some row of the join. */
  lemma ActiveCoversKeys(keys: seq<ApiKeyRow>, specs: seq<SpecRow>)
    ensures forall i :: 0 <= i < |keys| && !keys[i].revoked ==>
      exists x :: x in Active(LeftJoin(keys, specs)) && Lists(x, keys[i])
  {
    var rows := LeftJoin(keys, specs);
    LeftJoinCovers(keys, specs);
    forall i | 0 <= i < |keys| && !keys[i].revoked ensures exists x :: x in Active(rows) && Lists(x, keys[i]) {
      var j :| 0 <= j < |rows| && rows[j].key == keys[i];
      assert Listed(rows[j]) in Active(rows);
    }
  }

  /** `listKeys()`: exactly the non-revoked keys (each with its joined spec
      columns, or nulls), newest first, and never the digest. */
  function ListKeys(keys: seq<ApiKeyRow>, specs: seq<SpecRow>): (r: seq<ListedKey>)
    ensures NewestFirst(r)
    ensures forall x :: x in r ==> !x.revoked && JoinedSpecs(specs, x.id, x.specs)
    ensures forall x :: x in r ==> exists i :: 0 <= i < |keys| && Lists(x, keys[i])
    ensures multiset(r) == multiset(Active(LeftJoin(keys, specs)))
  {
    SortKeepsMembers(Active(LeftJoin(keys, specs)));
    ActiveFromKeys(keys, specs);
    SortNewestFirst(Active(LeftJoin(keys, specs)))
  }

  /** Every non-revoked key row is listed: the position of its item. */
  lemma ListedAt(keys: seq<ApiKeyRow>, specs: seq<SpecRow>, i: nat) returns (n: nat)
    requires i < |keys| && !keys[i].revoked
    ensures n < |ListKeys(keys, specs)| && Lists(ListKeys(keys, specs)[n], keys[i])
  {
    var active := Active(LeftJoin(keys, specs));
    ActiveCoversKeys(keys, specs);
    SortKeepsMembers(active);
    var x :| x in active && Lists(x, keys[i]);
    var listed := ListKeys(keys, specs);
    assert listed == SortNewestFirst(active);
    n := PositionOf(listed, x);
  }

  // ---------------------------------------------------------------------------
  // getKeyDetails

  /** A row of `getKeyDetails`: all selected columns, the digest included. */
  datatype KeyDetails = KeyDetails(
    id: string,
    name: string,
    last4: string,
    createdAt: nat,
    revoked: bool,
    hashedKey: string,
    specs: HardwareSpecs)

  /** `getKeyDetails(id)`: the row with that id whether revoked or not, with
      its digest and spec columns, or null when there is none. */
  function GetKeyDetails(keys: seq<ApiKeyRow>, specs: seq<SpecRow>, id: string): (r: Option<KeyDetails>)
    ensures r.None? <==> !HasId(keys, id)
    ensures r.Some? ==> exists i :: (0 <= i < |keys| && keys[i].id == id
      && r.value == KeyDetails(id, keys[i].name, keys[i].last4, keys[i].createdAt,
                               keys[i].revoked, keys[i].hashedKey, FirstSpecs(specs, id)))
  {
    match FirstIndex(keys, (k: ApiKeyRow) => k.id == id)
    case None => None
    case Some(i) =>
      var k := keys[i];
      Some(KeyDetails(k.id, k.name, k.last4, k.createdAt, k.revoked, k.hashedKey, FirstSpecs(specs, id)))
  }

  // ---------------------------------------------------------------------------
  // verifyKey

  /** The tagged outcome of verifying a presented key. */
  datatype VerifyResult =
    | NotFound
    | Revoked
    | Valid(keyId: string, name: string, specs: HardwareSpecs)
  {
    /** The `reason` string of a failed verification. */
    function Reason(): string
      requires !Valid?
    {
      if NotFound? then "not_found" else "revoked"
    }
  }

  /** Row `i` is the first row, in table order, whose digest is `hashed`. */
  predicate FirstWithHash(keys: seq<ApiKeyRow>, hashed: string, i: int) {
    && 0 <= i < |keys|
    && keys[i].hashedKey == hashed
    && forall j :: 0 <= j < i ==> keys[j].hashedKey != hashed
  }

  /** `verifyKey(apiKey)`: hash the presented text (the empty text too), look
      the digest up, and report not_found, revoked or valid with that row's id. */
  function VerifyKey(digest: KeyCodec.Digest, keys: seq<ApiKeyRow>, specs: seq<SpecRow>, apiKey: string): (r: VerifyResult)
    ensures r.NotFound? <==> forall j :: 0 <= j < |keys| ==> keys[j].hashedKey != digest(apiKey)
    ensures !r.NotFound? ==> exists i :: (FirstWithHash(keys, digest(apiKey), i)
      && (r.Revoked? <==> keys[i].revoked)
      && (r.Valid? ==> r == Valid(keys[i].id, keys[i].name, FirstSpecs(specs, keys[i].id))))
  {
    var hashed := digest(apiKey);
    match FirstIndex(keys, (k: ApiKeyRow) => k.hashedKey == hashed)
    case None => NotFound
    case Some(i) =>
      assert FirstWithHash(keys, hashed, i);
      var k := keys[i];
      if k.revoked then Revoked else Valid(k.id, k.name, FirstSpecs(specs, k.id))
  }

  /** The first row with a given digest is unique. */
  lemma FirstWithHashUnique(keys: seq<ApiKeyRow>, hashed: string, i: int, j: int)
    requires FirstWithHash(keys, hashed, i) && FirstWithHash(keys, hashed, j)
    ensures i == j
  {
  }

  // ---------------------------------------------------------------------------
  // revokeKey and updateKeySpecs, as functions of the tables

  /** `update apiKeys set revoked = true where id = ?`: every row with that id
      becomes revoked, and no other row and no other column changes. */
  function RevokeWhere(keys: seq<ApiKeyRow>, id: string): (r: seq<ApiKeyRow>)
    ensures |r| == |keys|
    ensures forall i :: 0 <= i < |keys| ==>
      r[i] == if keys[i].id == id then keys[i].(revoked := true) else keys[i]
  {
    if keys == [] then []
    else [if keys[0].id == id then keys[0].(revoked := true) else keys[0]] + RevokeWhere(keys[1..], id)
  }

  /** The columns a partial update leaves: supplied fields replace the stored
      ones, fields not supplied keep their stored value. */
  function MergeSpecs(stored: HardwareSpecs, update: HardwareSpecs): (r: HardwareSpecs)
    ensures update.frontView.Some? ==> r.frontView == update.frontView
    ensures update.frontView.None? ==> r.frontView == stored.frontView
    ensures update.sideView.Some? ==> r.sideView == update.sideView
    ensures update.sideView.None? ==> r.sideView == stored.sideView
    ensures update.backView.Some? ==> r.backView == update.backView
    ensures update.backView.None? ==> r.backView == stored.backView
    ensures update.description.Some? ==> r.description == update.description
    ensures update.description.None? ==> r.description == stored.description
    ensures update.monthlyPrice.Some? ==> r.monthlyPrice == update.monthlyPrice
    ensures update.monthlyPrice.None? ==> r.monthlyPrice == stored.monthlyPrice
    ensures update.fullyPaidPrice.Some? ==> r.fullyPaidPrice == update.fullyPaidPrice
    ensures update.fullyPaidPrice.None? ==> r.fullyPaidPrice == stored.fullyPaidPrice
  {
    HardwareSpecs(
      if update.frontView.Some? then update.frontView else stored.frontView,
      if update.sideView.Some? then update.sideView else stored.sideView,
      if update.backView.Some? then update.backView else stored.backView,
      if update.description.Some? then update.description else stored.description,
      if update.monthlyPrice.Some? then update.monthlyPrice else stored.monthlyPrice,
      if update.fullyPaidPrice.Some? then update.fullyPaidPrice else stored.fullyPaidPrice)
  }

  /** `update hardwareSpecs set ... where apiKeyId = ?`: every spec row of the
      key takes the supplied fields; rows keep their ids, and rows of other
      keys are untouched. */
  function UpdateSpecsWhere(specs: seq<SpecRow>, apiKeyId: string, update: HardwareSpecs): (r: seq<SpecRow>)
    ensures |r| == |specs|
    ensures forall i :: 0 <= i < |specs| ==> r[i].id == specs[i].id && r[i].apiKeyId == specs[i].apiKeyId
    ensures forall i :: 0 <= i < |specs| ==>
      r[i].specs == if specs[i].apiKeyId == apiKeyId then MergeSpecs(specs[i].specs, update) else specs[i].specs
  {
    if specs == [] then []
    else
      var s := specs[0];
      [if s.apiKeyId == apiKeyId then s.(specs := MergeSpecs(s.specs, update)) else s]
      + UpdateSpecsWhere(specs[1..], apiKeyId, update)
  }

  /** How many spec rows belong to a key. */
  function CountSpecs(specs: seq<SpecRow>, apiKeyId: string): (n: nat)
    ensures n == 0 <==> forall j :: 0 <= j < |specs| ==> specs[j].apiKeyId != apiKeyId
    ensures n <= |specs|
  {
    if specs == [] then 0
    else (if specs[0].apiKeyId == apiKeyId then 1 else 0) + CountSpecs(specs[1..], apiKeyId)
  }

  /** An update keeps the number of spec rows of every key. */
  lemma {:induction false} UpdateKeepsCounts(specs: seq<SpecRow>, apiKeyId: string, update: HardwareSpecs, other: string)
    ensures CountSpecs(UpdateSpecsWhere(specs, apiKeyId, update), other) == CountSpecs(specs, other)
  {
    if specs != [] {
      var r := UpdateSpecsWhere(specs, apiKeyId, update);
      assert r[1..] == UpdateSpecsWhere(specs[1..], apiKeyId, update);
      UpdateKeepsCounts(specs[1..], apiKeyId, update, other);
    }
  }

  lemma {:induction false} AppendCount(specs: seq<SpecRow>, row: SpecRow, apiKeyId: string)
    ensures CountSpecs(specs + [row], apiKeyId) == CountSpecs(specs, apiKeyId) + (if row.apiKeyId == apiKeyId then 1 else 0)
  {
    if specs != [] {
      assert (specs + [row])[1..] == specs[1..] + [row];
      AppendCount(specs[1..], row, apiKeyId);
    }
  }

  // ---------------------------------------------------------------------------
  // The tables and their updates

  /** The value `insertKey` returns: the plaintext key, once. */
  datatype IssuedKey = IssuedKey(
    id: string,
    name: string,
    key: string,
    last4: string,
    hardwareSpecs: Option<HardwareSpecs>)

  /** A failed statement: a primary-key clash on insert. */
  datatype DbError = DuplicateKey(id: string)

  class Database {
    /** KEY_PREFIX as read at start-up. */
    const prefix: string
    /** The digest function (`sha256`). */
    const digest: KeyCodec.Digest
    var keys: seq<ApiKeyRow>
    var specs: seq<SpecRow>
    var motors: seq<MotorSpecRow>

    /** The apiKeys constraints: unique primary key and column caps. */
    ghost predicate Valid()
      reads this
    {
      UniqueIds(keys) && forall i :: 0 <= i < |keys| ==> RowValid(keys[i])
    }

    constructor (envPrefix: Option<string>, digest: KeyCodec.Digest)
      ensures Valid()
      ensures prefix == KeyCodec.ConfiguredPrefix(envPrefix) && this.digest == digest
      ensures keys == [] && specs == [] && motors == []
    {
      prefix := KeyCodec.ConfiguredPrefix(envPrefix);
      this.digest := digest;
      keys, specs, motors := [], [], [];
    }

    /** `insertKey(name, hardwareSpecsData?)`: generates a key from `random`,
        takes the row id from `keyRandom` and the spec-row id from
        `specRandom`, stores the digest and last4 (never the key), adds a spec
        row only when spec data is given, and returns the plaintext. A clash
        with an existing id fails the first insert and changes nothing. */
    method InsertKey(name: string, hardwareSpecsData: Option<HardwareSpecs>,
                     random: seq<byte>, keyRandom: seq<byte>, specRandom: seq<byte>, now: nat)
      returns (r: Result<IssuedKey, DbError>)
      requires Valid()
      requires |random| == KeyCodec.DefaultKeyBytes && |keyRandom| == 16 && |specRandom| == 16
      modifies this`keys, this`specs
      ensures Valid()
      ensures var id := Uuid.RandomUuid(keyRandom);
              var k := KeyCodec.GeneratePlainKey(prefix, random);
        if HasId(old(keys), id) then
          r == Failure(DuplicateKey(id)) && keys == old(keys) && specs == old(specs)
        else
          && r == Success(IssuedKey(id, name, k.key, k.last4, hardwareSpecsData))
          && keys == old(keys) + [NewKeyRow(id, name, digest(k.key), k.last4, now)]
          && specs == old(specs) + (if hardwareSpecsData.Some?
                                    then [SpecRow(Uuid.RandomUuid(specRandom), id, hardwareSpecsData.value)]
                                    else [])
    {
      var k := KeyCodec.GeneratePlainKey(prefix, random);
      var hashed := digest(k.key);
      var keyId := Uuid.RandomUuid(keyRandom);
      var specId := Uuid.RandomUuid(specRandom);
      if HasId(keys, keyId) {
        return Failure(DuplicateKey(keyId));
      }
      keys := keys + [NewKeyRow(keyId, name, hashed, k.last4, now)];
      if hardwareSpecsData.Some? {
        specs := specs + [SpecRow(specId, keyId, hardwareSpecsData.value)];
      }
      r := Success(IssuedKey(keyId, name, k.key, k.last4, hardwareSpecsData));
    }

    /** `revokeKey(id)`: sets revoked on the row with that id and reports
        whether the update matched a row, which it also does for a key that
        was already revoked. */
    method RevokeKey(id: string) returns (ok: bool)
      requires Valid()
      modifies this`keys
      ensures Valid()
      ensures keys == RevokeWhere(old(keys), id)
      ensures ok == HasId(old(keys), id)
    {
      ok := HasId(keys, id);
      keys := RevokeWhere(keys, id);
    }

    /** `updateKeySpecs(apiKeyId, data)`: overwrites the supplied fields of the
        key's spec rows when it has any, inserts a spec row otherwise; reports
        true in both cases. The key itself is not looked up. */
    method UpdateKeySpecs(apiKeyId: string, data: HardwareSpecs, specRandom: seq<byte>) returns (ok: bool)
      requires |specRandom| == 16
      modifies this`specs
      ensures ok
      ensures if CountSpecs(old(specs), apiKeyId) > 0
              then specs == UpdateSpecsWhere(old(specs), apiKeyId, data)
              else specs == old(specs) + [SpecRow(Uuid.RandomUuid(specRandom), apiKeyId, data)]
      ensures CountSpecs(specs, apiKeyId) == if CountSpecs(old(specs), apiKeyId) == 0 then 1 else CountSpecs(old(specs), apiKeyId)
    {
      var existing := FirstIndex(specs, (s: SpecRow) => s.apiKeyId == apiKeyId);
      if existing.Some? {
        UpdateKeepsCounts(specs, apiKeyId, data, apiKeyId);
        specs := UpdateSpecsWhere(specs, apiKeyId, data);
        ok := CountSpecs(specs, apiKeyId) > 0;
      } else {
        var row := SpecRow(Uuid.RandomUuid(specRandom), apiKeyId, data);
        AppendCount(specs, row, apiKeyId);
        specs := specs + [row];
        ok := true;
      }
    }

    /** Inserts a motorSpecs row. */
    method InsertMotorSpec(row: MotorSpecRow)
      modifies this`motors
      ensures motors == old(motors) + [row]
    {
      motors := motors + [row];
    }
  }
}
