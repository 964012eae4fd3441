// A Space's configuration as a file: exporting it, checking one that comes back, and
// the preview and the plan of an import (backend/wavr/config_export.py).
module ConfigExport {
  import opened Prelude
  import opened Text
  import opened Digits
  import opened StringOrder
  import opened Json

  const CONFIG_VERSION := 1
  const MAX_BUNDLE_ROWS := 500

  // -- Documents -----------------------------------------------------------------------------

  // A configuration file, parsed. A key that may be absent or null alike is null here.
  datatype Payload =
    | NotAnObject
    | Document(version: Json, exportedAt: string, space: Option<Json>, house: Json,
               cameras: Json, nodes: Json, anchors: Json, haMappings: Json, providers: Json,
               topology: Json, settings: Json, secrets: Option<Json>)

  datatype ListKey = Cameras | Nodes | Anchors | HaMappings | Providers

  datatype TransferError =
    | MustBeObject | NoVersion | VersionNotNumber | NewerVersion
    | MustBeList(key: ListKey) | TooMany(key: ListKey)
    | UnreadableFloorPlan

  // What a caller sees when there is no answer: a refusal, or an error nobody caught.
  datatype Failure = Refused(why: TransferError) | Uncaught

  function RowsOf(d: Payload, key: ListKey): (v: Json)
    requires d.Document?
  {
    match key
    case Cameras => d.cameras
    case Nodes => d.nodes
    case Anchors => d.anchors
    case HaMappings => d.haMappings
    case Providers => d.providers
  }

  // -- Export ----------------------------------------------------------------------------------

  datatype SettingRow = NotADict | Setting(key: Option<string>, value: Json)

  datatype Inputs = Inputs(now: string, space: seq<Property>, house: Json, cameras: seq<Json>, nodes: seq<Json>,
                           anchors: seq<Json>, haMappings: seq<Json>, providers: seq<Json>,
                           settings: seq<SettingRow>, topology: Json)

  const CAMERA_FIELDS: seq<string> := ["name", "room", "level", "confidence"]
  const NODE_FIELDS: seq<string> := ["node_id", "label", "room", "sensor_type", "modality", "state", "transport"]
  const ANCHOR_FIELDS: seq<string> := ["name", "room", "level", "kind", "x", "y", "z", "note"]
  const HA_MAPPING_FIELDS: seq<string> := ["entity_id", "room", "modality", "enabled", "label", "areas"]
  const PROVIDER_FIELDS: seq<string> :=
    ["provider_id", "label", "kind", "reach", "modality", "ceiling", "confidence", "enabled", "notes"]
  const SECRET_SETTINGS: seq<string> := ["ha_token", "mqtt_password", "diag_endpoint", "local_token"]

  function PickFields(row: seq<Property>, keys: seq<string>): (r: seq<Property>) {
    if |keys| == 0 then []
    else
      var v := Find(row, keys[0]);
      (if v.Some? && v.value != Null then [Field(keys[0], v.value)] else []) + PickFields(row, keys[1..])
  }

  // A row reduced to named fields.
  function Pick(row: Json, keys: seq<string>): (r: Json) {
    if row.Obj? then Obj(PickFields(row.fields, keys)) else Obj([])
  }

  function PickAll(rows: seq<Json>, keys: seq<string>): (r: seq<Json>)
    ensures |r| == |rows|
  {
    if |rows| == 0 then [] else [Pick(rows[0], keys)] + PickAll(rows[1..], keys)
  }

  function FieldOr(d: seq<Property>, k: string, default: Json): (v: Json) {
    var x := Find(d, k);
    if x.Some? then x.value else default
  }

  function PutField(d: seq<Property>, k: string, v: Json): (r: seq<Property>) {
    if |d| == 0 then [Field(k, v)]
    else if d[0].key == k then [Field(k, v)] + d[1..]
    else [d[0]] + PutField(d[1..], k, v)
  }

  predicate Secret(k: string) { k in SECRET_SETTINGS }

  // A setting that travels: it has a name, and not a secret's.
  predicate Travels(s: SettingRow) { s.Setting? && s.key.Some? && s.key.value != "" && !Secret(s.key.value) }
  predicate NeedsSecret(s: SettingRow) { s.Setting? && s.key.Some? && Secret(s.key.value) && Truthy(s.value) }

  function Settings(rows: seq<SettingRow>): (r: seq<Property>) {
    if |rows| == 0 then []
    else
      var s := rows[|rows| - 1];
      var before := Settings(rows[..|rows| - 1]);
      if Travels(s) then PutField(before, s.key.value, s.value) else before
  }

  function SecretsNeeded(rows: seq<SettingRow>): (r: seq<string>) {
    if |rows| == 0 then []
    else (if NeedsSecret(rows[0]) then [rows[0].key.value] else []) + SecretsNeeded(rows[1..])
  }

  // sorted() of a list.
  function Insert(x: string, s: seq<string>): (r: seq<string>) {
    if |s| == 0 then [x] else if Less(s[0], x) then [s[0]] + Insert(x, s[1..]) else [x] + s
  }

  function Sorted(s: seq<string>): (r: seq<string>) {
    if |s| == 0 then [] else Insert(s[0], Sorted(s[1..]))
  }

  function OrEmpty(v: Json): (r: Json) { if Truthy(v) then v else Obj([]) }

  function Export(x: Inputs): (d: Payload) {
    Document(Int(CONFIG_VERSION), x.now,
             Some(Obj([Field("name", FieldOr(x.space, "name", Str(""))),
                       Field("kind", FieldOr(x.space, "kind", Str("")))])),
             OrEmpty(x.house),
             Arr(PickAll(x.cameras, CAMERA_FIELDS)), Arr(PickAll(x.nodes, NODE_FIELDS)),
             Arr(PickAll(x.anchors, ANCHOR_FIELDS)), Arr(PickAll(x.haMappings, HA_MAPPING_FIELDS)),
             Arr(PickAll(x.providers, PROVIDER_FIELDS)),
             OrEmpty(x.topology), Obj(Settings(x.settings)),
             Some(Arr(Strings(Sorted(SecretsNeeded(x.settings))))))
  }

  // -- Check ------------------------------------------------------------------------------------

  // int() of a parsed value, where it gives one.
  function AsInt(v: Json): (n: Option<int>) {
    match v
    case Int(i) => Some(i)
    case Bool(b) => Some(if b then 1 else 0)
    case Float(r) => Some(if r >= 0.0 then r.Floor else -((-r).Floor))
    case Str(s) => IntText(Strip(s))
    case _ => None
  }

  function IntText(s: string): (n: Option<int>) {
    var minus := |s| > 0 && s[0] == '-';
    var d := if |s| > 0 && (s[0] == '-' || s[0] == '+') then s[1..] else s;
    if |d| > 0 && AllDigits(d) then
      var n: int := Value(d);
      Some(if minus then -n else n)
    else None
  }

  function RowsFault(d: Payload, key: ListKey): (e: Option<TransferError>)
    requires d.Document?
  {
    var v := RowsOf(d, key);
    if v.Null? then None
    else if !v.Arr? then Some(MustBeList(key))
    else if |v.items| > MAX_BUNDLE_ROWS then Some(TooMany(key))
    else None
  }

  function Check(d: Payload): (e: Option<TransferError>) {
    if d.NotAnObject? then Some(MustBeObject)
    else if d.version.Null? then Some(NoVersion)
    else
      var found := AsInt(d.version);
      if found.None? then Some(VersionNotNumber)
      else if found.value > CONFIG_VERSION then Some(NewerVersion)
      else if RowsFault(d, Cameras).Some? then RowsFault(d, Cameras)
      else if RowsFault(d, Nodes).Some? then RowsFault(d, Nodes)
      else if RowsFault(d, Anchors).Some? then RowsFault(d, Anchors)
      else if RowsFault(d, HaMappings).Some? then RowsFault(d, HaMappings)
      else RowsFault(d, Providers)
  }

  // -- What int() reads ------------------------------------------------------------

  // A sign, or none, and then at least one digit.
  ghost predicate Signed(s: string, sign: string, d: string) {
    s == sign + d && |d| > 0 && AllDigits(d) && (sign == "" || sign == "+" || sign == "-")
  }

  lemma IntTextExactly(s: string, sign: string, d: string)
    requires Signed(s, sign, d)
    ensures var n: int := Value(d); IntText(s) == Some(if sign == "-" then -n else n)
  {
    if sign != "" { assert s[0] == sign[0] && s[1..] == d; } else { assert s == d && IsDigit(s[0]); }
  }

  lemma IntTextOnly(s: string)
    ensures IntText(s).Some? ==> exists sign, d :: Signed(s, sign, d)
  {
    if IntText(s).Some? {
      if s[0] == '-' {
        assert Signed(s, "-", s[1..]);
      } else if s[0] == '+' {
        assert Signed(s, "+", s[1..]);
      } else {
        assert Signed(s, "", s);
      }
    }
  }

  // The version a value is read as: a number is cut towards zero, true is one, and text is
  // a signed decimal; nothing else is a version.
  lemma AsIntExactly(v: Json, n: int)
    ensures AsInt(v) == Some(n) <==>
              match v
              case Int(i) => n == i
              case Bool(b) => (b && n == 1) || (!b && n == 0)
              case Float(r) =>
                if r < 0.0 then n as real - 1.0 < r <= n as real && n <= 0
                else n as real <= r < n as real + 1.0 && n >= 0
              case Str(s) => IntText(Strip(s)) == Some(n)
              case _ => false
  {
  }

  // -- Which files are taken ----------------------------------------------------------

  ghost predicate Readable(d: Payload) {
    d.Document? && !d.version.Null? && AsInt(d.version).Some? && AsInt(d.version).value <= 1
  }

  ghost predicate Fits(d: Payload, key: ListKey)
    requires d.Document?
  {
    RowsOf(d, key).Null? || (RowsOf(d, key).Arr? && |RowsOf(d, key).items| <= 500)
  }

  // A file is taken exactly when it is an object whose version is a number not newer than
  // this one, and each of its lists is absent or a list within the cap; otherwise the
  // first fault is named, the version before the lists.
  lemma CheckExactly(d: Payload)
    ensures Check(d).None? <==> Readable(d) && forall key :: Fits(d, key)
    ensures Check(d) == Some(MustBeObject) <==> d.NotAnObject?
    ensures Check(d) == Some(NoVersion) <==> d.Document? && d.version.Null?
    ensures Check(d) == Some(VersionNotNumber) <==> d.Document? && !d.version.Null? && AsInt(d.version).None?
    ensures Check(d) == Some(NewerVersion) <==>
              d.Document? && !d.version.Null? && AsInt(d.version).Some? && AsInt(d.version).value > 1
  {
    if d.Document? {
      forall key: ListKey ensures RowsFault(d, key).None? <==> Fits(d, key) {}
      EveryKey(d);
    }
  }

  lemma EveryKey(d: Payload)
    requires d.Document?
    ensures (forall key :: Fits(d, key)) <==>
              Fits(d, Cameras) && Fits(d, Nodes) && Fits(d, Anchors) && Fits(d, HaMappings) && Fits(d, Providers)
  {
    if Fits(d, Cameras) && Fits(d, Nodes) && Fits(d, Anchors) && Fits(d, HaMappings) && Fits(d, Providers) {
      forall key: ListKey ensures Fits(d, key) {
        match key
        case Cameras =>
        case Nodes =>
        case Anchors =>
        case HaMappings =>
        case Providers =>
      }
    }
  }

  // The list it names is at fault, and no list before it.
  lemma ListFaultExactly(d: Payload, key: ListKey)
    requires Check(d) == Some(MustBeList(key)) || Check(d) == Some(TooMany(key))
    ensures Readable(d) && !RowsOf(d, key).Null?
    ensures Check(d) == Some(MustBeList(key)) <==> !RowsOf(d, key).Arr?
    ensures RowsOf(d, key).Arr? ==> |RowsOf(d, key).items| > 500
    ensures key != Cameras ==> Fits(d, Cameras)
    ensures key == Anchors || key == HaMappings || key == Providers ==> Fits(d, Nodes)
    ensures key == HaMappings || key == Providers ==> Fits(d, Anchors)
    ensures key == Providers ==> Fits(d, HaMappings)
  {
  }

  function InputRows(x: Inputs, key: ListKey): (n: seq<Json>) {
    match key
    case Cameras => x.cameras
    case Nodes => x.nodes
    case Anchors => x.anchors
    case HaMappings => x.haMappings
    case Providers => x.providers
  }

  // A Space's own export is one this Core takes back exactly when no list in it is
  // over the cap, which the export does not apply.
  lemma ExportAcceptedExactly(x: Inputs)
    ensures Check(Export(x)).None? <==> forall key :: |InputRows(x, key)| <= MAX_BUNDLE_ROWS
    ensures Check(Export(x)).Some? ==>
              Check(Export(x)).value.TooMany? && |InputRows(x, Check(Export(x)).value.key)| > MAX_BUNDLE_ROWS
  {
    var d := Export(x);
    forall key: ListKey
      ensures RowsFault(d, key) == if |InputRows(x, key)| > MAX_BUNDLE_ROWS then Some(TooMany(key)) else None {
      match key
      case Cameras =>
      case Nodes =>
      case Anchors =>
      case HaMappings =>
      case Providers =>
    }
    if Check(d).None? {
      forall key ensures |InputRows(x, key)| <= MAX_BUNDLE_ROWS {
        assert RowsFault(d, key).None? by {
          match key
          case Cameras =>
          case Nodes =>
          case Anchors =>
          case HaMappings =>
          case Providers =>
        }
      }
    }
  }

  // -- What leaves ---------------------------------------------------------------------------------

  lemma {:induction false} PickFieldsExactly(row: seq<Property>, keys: seq<string>, k: string)
    ensures Find(PickFields(row, keys), k)
            == if k in keys && Find(row, k).Some? && Find(row, k).value != Null then Find(row, k) else None
  {
    if |keys| > 0 {
      PickFieldsExactly(row, keys[1..], k);
      var v := Find(row, keys[0]);
      if v.Some? && v.value != Null {
        assert PickFields(row, keys)[1..] == PickFields(row, keys[1..]);
      } else {
        assert PickFields(row, keys) == PickFields(row, keys[1..]);
      }
      assert k in keys <==> k == keys[0] || k in keys[1..];
    }
  }

  // A row that leaves carries the named fields the row had, and nothing else.
  lemma PickExactly(row: Json, keys: seq<string>, k: string)
    ensures Pick(row, keys).Obj?
    ensures Find(Pick(row, keys).fields, k)
            == if row.Obj? && k in keys && Find(row.fields, k).Some? && Find(row.fields, k).value != Null
               then Find(row.fields, k) else None
  {
    if row.Obj? { PickFieldsExactly(row.fields, keys, k); }
  }

  // The fields that leave, by name: so never a camera's URL.
  lemma ExportedFields(row: Json, k: string)
    ensures Find(Pick(row, CAMERA_FIELDS).fields, k).Some? ==> k in {"name", "room", "level", "confidence"}
    ensures row.Obj? && Find(row.fields, k).Some? && Find(row.fields, k).value != Null ==>
              && (k in {"name", "room", "level", "confidence"} ==>
                    Find(Pick(row, CAMERA_FIELDS).fields, k) == Find(row.fields, k))
              && (k in {"node_id", "label", "room", "sensor_type", "modality", "state", "transport"} ==>
                    Find(Pick(row, NODE_FIELDS).fields, k) == Find(row.fields, k))
              && (k in {"name", "room", "level", "kind", "x", "y", "z", "note"} ==>
                    Find(Pick(row, ANCHOR_FIELDS).fields, k) == Find(row.fields, k))
              && (k in {"entity_id", "room", "modality", "enabled", "label", "areas"} ==>
                    Find(Pick(row, HA_MAPPING_FIELDS).fields, k) == Find(row.fields, k))
              && (k in {"provider_id", "label", "kind", "reach", "modality", "ceiling", "confidence", "enabled",
                        "notes"} ==>
                    Find(Pick(row, PROVIDER_FIELDS).fields, k) == Find(row.fields, k))
  {
    PickExactly(row, CAMERA_FIELDS, k);
    PickExactly(row, NODE_FIELDS, k);
    PickExactly(row, ANCHOR_FIELDS, k);
    PickExactly(row, HA_MAPPING_FIELDS, k);
    PickExactly(row, PROVIDER_FIELDS, k);
  }

  lemma {:induction false} PickAllAt(rows: seq<Json>, keys: seq<string>, i: nat)
    requires i < |rows|
    ensures PickAll(rows, keys)[i] == Pick(rows[i], keys)
  {
    if i > 0 { PickAllAt(rows[1..], keys, i - 1); }
  }

  lemma {:induction false} FindPut(d: seq<Property>, k: string, v: Json, q: string)
    ensures Find(PutField(d, k, v), q) == if q == k then Some(v) else Find(d, q)
  {
    if |d| > 0 {
      if d[0].key == k {
        assert PutField(d, k, v)[1..] == d[1..];
      } else {
        FindPut(d[1..], k, v, q);
        assert PutField(d, k, v)[1..] == PutField(d[1..], k, v);
      }
    }
  }

  // The value a list of settings gives a name: that of its last row.
  function LastSetting(rows: seq<SettingRow>, k: string): (v: Option<Json>) {
    if |rows| == 0 then None
    else
      var s := rows[|rows| - 1];
      if s.Setting? && s.key == Some(k) then Some(s.value) else LastSetting(rows[..|rows| - 1], k)
  }

  lemma {:induction false} SettingsExactly(rows: seq<SettingRow>, k: string)
    ensures Find(Settings(rows), k) == if k == "" || Secret(k) then None else LastSetting(rows, k)
  {
    if |rows| > 0 {
      var before := rows[..|rows| - 1];
      SettingsExactly(before, k);
      var s := rows[|rows| - 1];
      if Travels(s) { FindPut(Settings(before), s.key.value, s.value, k); }
    }
  }

  lemma {:induction false} InsertHolds(x: string, s: seq<string>, y: string)
    ensures y in Insert(x, s) <==> y == x || y in s
  {
    if |s| > 0 && Less(s[0], x) { InsertHolds(x, s[1..], y); }
  }

  lemma {:induction false} SortedHolds(s: seq<string>, y: string)
    ensures y in Sorted(s) <==> y in s
  {
    if |s| > 0 {
      SortedHolds(s[1..], y);
      InsertHolds(s[0], Sorted(s[1..]), y);
    }
  }

  lemma {:induction false} SecretsNeededHolds(rows: seq<SettingRow>, y: string)
    ensures y in SecretsNeeded(rows) <==> exists i | 0 <= i < |rows| :: NeedsSecret(rows[i]) && rows[i].key.value == y
  {
    if |rows| > 0 {
      SecretsNeededHolds(rows[1..], y);
      if i :| 0 <= i < |rows| && NeedsSecret(rows[i]) && rows[i].key.value == y {
        if i > 0 { assert rows[1..][i - 1] == rows[i]; }
      }
      if i :| 0 <= i < |rows[1..]| && NeedsSecret(rows[1..][i]) && rows[1..][i].key.value == y {
        assert rows[i + 1] == rows[1..][i];
      }
    }
  }

  // Sorted, and the same names as often.
  lemma {:induction false} SortedIsSorted(s: seq<string>)
    ensures multiset(Sorted(s)) == multiset(s)
    ensures forall i, j | 0 <= i < j < |Sorted(s)| :: !Less(Sorted(s)[j], Sorted(s)[i])
  {
    if |s| > 0 {
      SortedIsSorted(s[1..]);
      InsertKeepsOrder(s[0], Sorted(s[1..]));
      assert s == [s[0]] + s[1..];
    }
  }

  lemma {:induction false} InsertKeepsOrder(x: string, s: seq<string>)
    requires forall i, j | 0 <= i < j < |s| :: !Less(s[j], s[i])
    ensures multiset(Insert(x, s)) == multiset(s) + multiset{x}
    ensures forall i, j | 0 <= i < j < |Insert(x, s)| :: !Less(Insert(x, s)[j], Insert(x, s)[i])
  {
    if |s| > 0 {
      assert s == [s[0]] + s[1..];
      if Less(s[0], x) {
        InsertKeepsOrder(x, s[1..]);
        var r := Insert(x, s[1..]);
        forall j | 0 <= j < |r| ensures !Less(r[j], s[0]) { NotBefore(x, s, r, j); }
        ConsKeepsOrder(s[0], r);
      } else {
        forall j | 0 <= j < |s| ensures !Less(s[j], x) { NotBeforeHead(x, s, j); }
        ConsKeepsOrder(x, s);
      }
    }
  }

  lemma ConsKeepsOrder(x: string, s: seq<string>)
    requires forall i, j | 0 <= i < j < |s| :: !Less(s[j], s[i])
    requires forall j | 0 <= j < |s| :: !Less(s[j], x)
    ensures var r := [x] + s; forall i, j | 0 <= i < j < |r| :: !Less(r[j], r[i])
  {
  }

  lemma NotBeforeHead(x: string, s: seq<string>, j: nat)
    requires j < |s| && !Less(s[0], x) && forall i, k | 0 <= i < k < |s| :: !Less(s[k], s[i])
    ensures !Less(s[j], x)
  {
    if Less(s[j], x) {
      LessTotal(s[0], s[j]);
      if s[j] != s[0] { LessTrans(s[0], s[j], x); }
    }
  }

  lemma NotBefore(x: string, s: seq<string>, r: seq<string>, j: nat)
    requires |s| > 0 && Less(s[0], x) && r == Insert(x, s[1..]) && j < |r|
    requires forall i, k | 0 <= i < k < |s| :: !Less(s[k], s[i])
    ensures !Less(r[j], s[0])
  {
    InsertHolds(x, s[1..], r[j]);
    assert r[j] in r;
    if r[j] == x {
      LessTotal(s[0], x);
    } else {
      var q :| 0 <= q < |s[1..]| && s[1..][q] == r[j];
      assert s[q + 1] == r[j];
    }
  }

  // What is nothing leaves as an empty object.
  lemma OrEmptyExactly(v: Json)
    ensures Truthy(v) ==> OrEmpty(v) == v
    ensures v in {Null, Bool(false), Int(0), Float(0.0), Str(""), Arr([]), Obj([])} ==> OrEmpty(v) == Obj([])
  {
  }

  // Secrets are named and never carried: the settings that leave are those with a name
  // that is not a secret's, each at its last value, and the list of what to supply
  // again names exactly the secrets that had a value.
  lemma SecretsNamedNotCarried(x: Inputs, k: string)
    ensures var d := Export(x);
            && Find(d.settings.fields, k) ==
                 (if k == "" || k in {"ha_token", "mqtt_password", "diag_endpoint", "local_token"} then None
                  else LastSetting(x.settings, k))
            && (k in Sorted(SecretsNeeded(x.settings)) <==>
                exists i | 0 <= i < |x.settings| :: NeedsSecret(x.settings[i]) && x.settings[i].key.value == k)
            && d.secrets == Some(Arr(Strings(Sorted(SecretsNeeded(x.settings)))))
  {
    SettingsExactly(x.settings, k);
    SortedHolds(SecretsNeeded(x.settings), k);
    SecretsNeededHolds(x.settings, k);
  }
}
