// What a Space's export, the audit of the finished file and the plan of importing it
// promise together (backend/wavr/config_export.py, backend/wavr/api_config_export.py).
module ConfigHandover {
  import opened Prelude
  import opened Text
  import opened StringOrder
  import opened Json
  import opened ConfigExport
  import opened ConfigImport
  import opened ConfigAudit

  // -- Documents with nothing suspicious in them -------------------------------------

  ghost predicate Clean(v: Json) { forall steps :: !Suspect(v, steps) }

  lemma SuspectCons(node: Json, step: Step, child: Json, steps: seq<Step>)
    requires Child(node, step, child) && Suspect(child, steps)
    ensures Suspect(node, [step] + steps)
  {
    var leaf :| Reaches(child, steps, leaf) && Marks(steps, leaf);
    ReachesCons(node, step, child, steps, leaf);
    assert Marks([step] + steps, leaf);
  }

  lemma SuspectKey(node: Json, k: string, child: Json)
    requires Child(node, Member(k), child) && BadKey(k)
    ensures Suspect(node, [Member(k)])
  {
    assert Reaches(child, [], child);
    ReachesCons(node, Member(k), child, [], child);
    assert [Member(k)] + [] == [Member(k)];
    assert Marks([Member(k)], child);
  }

  lemma SuspectUncons(node: Json, steps: seq<Step>) returns (child: Json)
    requires |steps| > 0 && Suspect(node, steps)
    ensures Child(node, steps[0], child)
    ensures Suspect(child, steps[1..]) || (steps[0].Member? && BadKey(steps[0].key))
  {
    var leaf :| Reaches(node, steps, leaf) && Marks(steps, leaf);
    child :| Child(node, steps[0], child) && Reaches(child, steps[1..], leaf);
    if |steps| > 1 { assert Marks(steps[1..], leaf); }
  }

  lemma MemberOfSuspect(fields: seq<Property>, steps: seq<Step>) returns (f: Property)
    requires Suspect(Obj(fields), steps)
    ensures f in fields && (BadKey(f.key) || !Clean(f.value))
  {
    var leaf :| Reaches(Obj(fields), steps, leaf) && Marks(steps, leaf);
    var child := SuspectUncons(Obj(fields), steps);
    f := Field(steps[0].key, child);
  }

  lemma ItemOfSuspect(items: seq<Json>, steps: seq<Step>) returns (i: nat)
    requires Suspect(Arr(items), steps)
    ensures i < |items| && !Clean(items[i])
  {
    var leaf :| Reaches(Arr(items), steps, leaf) && Marks(steps, leaf);
    var child := SuspectUncons(Arr(items), steps);
    i := steps[0].index;
  }

  lemma CleanObject(fields: seq<Property>)
    ensures Clean(Obj(fields)) <==> forall f | f in fields :: !BadKey(f.key) && Clean(f.value)
  {
    var node: Json := Obj(fields);
    if Clean(node) {
      forall f | f in fields ensures !BadKey(f.key) && Clean(f.value) {
        assert Child(node, Member(f.key), f.value);
        if BadKey(f.key) { SuspectKey(node, f.key, f.value); }
        forall steps: seq<Step> ensures !Suspect(f.value, steps) {
          if Suspect(f.value, steps) { SuspectCons(node, Member(f.key), f.value, steps); }
        }
      }
    }
    if forall f | f in fields :: !BadKey(f.key) && Clean(f.value) {
      forall steps: seq<Step> ensures !Suspect(node, steps) {
        if Suspect(node, steps) { var f := MemberOfSuspect(fields, steps); }
      }
    }
  }

  lemma CleanList(items: seq<Json>)
    ensures Clean(Arr(items)) <==> forall i | 0 <= i < |items| :: Clean(items[i])
  {
    var node: Json := Arr(items);
    if Clean(node) {
      forall i | 0 <= i < |items| ensures Clean(items[i]) {
        assert Child(node, Item(i), items[i]);
        forall steps: seq<Step> ensures !Suspect(items[i], steps) {
          if Suspect(items[i], steps) { SuspectCons(node, Item(i), items[i], steps); }
        }
      }
    }
    if forall i | 0 <= i < |items| :: Clean(items[i]) {
      forall steps: seq<Step> ensures !Suspect(node, steps) {
        if Suspect(node, steps) { var i := ItemOfSuspect(items, steps); }
      }
    }
  }

  lemma CleanText(s: string)
    ensures Clean(Str(s)) <==> !BadText(s)
  {
    var node: Json := Str(s);
    if BadText(s) {
      assert Reaches(node, [], node) && Marks([], node);
      assert Suspect(node, []);
    } else {
      forall steps: seq<Step> ensures !Suspect(node, steps) {
        if Suspect(node, steps) && |steps| > 0 { var child := SuspectUncons(node, steps); }
      }
    }
  }

  lemma CleanAtom(v: Json)
    requires v.Null? || v.Bool? || v.Int? || v.Float?
    ensures Clean(v)
  {
    forall steps: seq<Step> ensures !Suspect(v, steps) {
      if Suspect(v, steps) && |steps| > 0 { var child := SuspectUncons(v, steps); }
    }
  }

  // What counts as nothing is clean, so "or {}" changes nothing.
  lemma CleanOrEmpty(v: Json)
    ensures Clean(OrEmpty(v)) <==> Clean(v)
  {
    if !Truthy(v) {
      CleanObject([]);
      CleanList([]);
      if v.Str? {
        CleanText("");
        NoneInNothing(CREDENTIAL_SHAPES);
      } else if !v.Arr? && !v.Obj? {
        CleanAtom(v);
      }
    }
  }

  lemma {:induction false} NoneInNothing(words: seq<string>)
    requires forall w | w in words :: w != ""
    ensures !HasAny("", words)
  {
    if |words| > 0 {
      assert words[0] in words;
      forall w | w in words[1..] ensures w != "" { assert w in words; }
      NoneInNothing(words[1..]);
    }
  }

  // -- The names and the prose the file always has --------------------------------------

  const HEAD_KEYS: seq<string> := ["wavr_config_version", "exported_at", "space", "house"]
  const LIST_KEYS: seq<string> := ["cameras", "nodes", "anchors", "ha_mappings", "external_providers"]
  const TAIL_KEYS: seq<string> := ["topology", "settings", "secrets_you_must_supply_again", "note"]
  const SPACE_KEYS: seq<string> := ["name", "kind"]

  // Every suspicious word holds one of these: a pair of letters that is in none of the
  // file's own names, or a character that is no letter.
  predicate Telling(s: string, i: nat) {
    i < |s| &&
    (|| !('a' <= s[i] <= 'z' || s[i] == '_')
     || (i + 1 < |s| && TellingPair(s[i], s[i + 1]))
     || (i + 2 < |s| && s[i] == 'a' && s[i + 1] == 'p' && s[i + 2] == 'i'))
  }

  predicate TellingPair(a: char, b: char) {
    (a == 's' && b == 's') || (a == 'o' && b == 'k') || (a == 'c' && b == 'r') || (a == 't' && b == 'h')
    || (a == 'i' && b == 'v')
  }

  predicate Plain(s: string) { forall i: nat | i < |s| :: !Telling(s, i) }

  ghost predicate Tells(w: string) { exists c: nat :: Telling(w, c) }

  lemma OccurrenceTells(s: string, w: string, i: nat, c: nat)
    requires OccursAt(s, w, i) && Telling(w, c)
    ensures Telling(s, i + c)
  {
    assert s[i + c] == s[i..i + |w|][c];
    if c + 1 < |w| { assert s[i + c + 1] == s[i..i + |w|][c + 1]; }
    if c + 2 < |w| { assert s[i + c + 2] == s[i..i + |w|][c + 2]; }
  }

  lemma {:induction false} PlainHasNone(s: string, words: seq<string>)
    requires Plain(s) && forall w | w in words :: Tells(w)
    ensures !HasAny(s, words)
  {
    if |words| > 0 {
      assert words[0] in words;
      var c: nat :| Telling(words[0], c);
      if Contains(s, words[0]) {
        var i: nat :| i <= |s| && OccursAt(s, words[0], i);
        OccurrenceTells(s, words[0], i, c);
      }
      forall w | w in words[1..] ensures Tells(w) { assert w in words; }
      PlainHasNone(s, words[1..]);
    }
  }

  lemma SuspiciousTells()
    ensures forall w | w in SUSPICIOUS :: Tells(w)
  {
    assert Telling("password", 2) && Telling("passwd", 2) && Telling("token", 1) && Telling("secret", 2);
    assert Telling("rtsp://", 4) && Telling("api_key", 0) && Telling("apikey", 0) && Telling("authorization", 2);
    assert Telling("bearer ", 6) && Telling("private_key", 2) && Telling("-----begin", 0);
  }

  lemma PlainIsNotBad(k: string)
    requires Plain(k)
    ensures !BadKey(k)
  {
    LowerAt(k);
    forall i | 0 <= i < |k| ensures Lower(k)[i] == k[i] { assert !Telling(k, i); }
    assert Lower(k) == k;
    SuspiciousTells();
    PlainHasNone(k, SUSPICIOUS);
  }

  predicate AllPlain(keys: seq<string>) { |keys| > 0 ==> Plain(keys[0]) && AllPlain(keys[1..]) }

  lemma {:induction false} AllPlainAt(keys: seq<string>, k: string)
    requires AllPlain(keys) && k in keys
    ensures !BadKey(k)
  {
    if k == keys[0] { PlainIsNotBad(k); } else { AllPlainAt(keys[1..], k); }
  }

  ghost predicate GoodKeys(keys: seq<string>) { forall k | k in keys :: !BadKey(k) }

  lemma HeadWordsArePlain()
    ensures Plain("wavr_config_version") && Plain("exported_at")
  {
  }

  lemma HeadKeysArePlain()
    ensures AllPlain(HEAD_KEYS)
  {
    HeadWordsArePlain();
  }

  lemma LongKeysArePlain()
    ensures Plain("external_providers") && Plain("ha_mappings")
  {
  }

  lemma LongFieldsArePlain()
    ensures Plain("sensor_type") && Plain("transport")
  {
  }

  lemma ListKeysArePlain()
    ensures AllPlain(LIST_KEYS)
  {
    LongKeysArePlain();
  }

  // The one key that names secrets is exempt.
  lemma TailKeysAreGood()
    ensures GoodKeys(TAIL_KEYS)
  {
    TailWordsArePlain();
    PlainIsNotBad("topology");
    PlainIsNotBad("settings");
    PlainIsNotBad("note");
  }

  lemma TailWordsArePlain()
    ensures Plain("topology") && Plain("settings") && Plain("note")
  {
  }

  lemma CameraFieldsArePlain()
    ensures AllPlain(CAMERA_FIELDS) && AllPlain(SPACE_KEYS)
  {
  }

  lemma NodeFieldsArePlain()
    ensures AllPlain(NODE_FIELDS)
  {
    LongFieldsArePlain();
  }

  lemma AnchorFieldsArePlain()
    ensures AllPlain(ANCHOR_FIELDS)
  {
  }

  lemma MappingFieldsArePlain()
    ensures AllPlain(HA_MAPPING_FIELDS)
  {
  }

  lemma ProviderWordsArePlain()
    ensures Plain("provider_id") && Plain("label") && Plain("kind") && Plain("reach") && Plain("modality")
  {
  }

  lemma MoreProviderWordsArePlain()
    ensures Plain("ceiling") && Plain("confidence") && Plain("enabled") && Plain("notes")
  {
  }

  lemma ProviderFieldsArePlain()
    ensures AllPlain(PROVIDER_FIELDS)
  {
    ProviderWordsArePlain();
    MoreProviderWordsArePlain();
  }

  // Text without the marks of a credential: no colon, no double dash, no "ea".
  predicate Quiet(s: string) { forall i: nat | i < |s| :: !Marking(s, i) }

  predicate Marking(s: string, i: nat) {
    i < |s| &&
    (|| s[i] == ':'
     || (i + 1 < |s| && s[i] == '-' && s[i + 1] == '-')
     || (i + 1 < |s| && (s[i] == 'e' || s[i] == 'E') && (s[i + 1] == 'a' || s[i + 1] == 'A')))
  }

  lemma OccursChar(s: string, w: string, i: nat, c: nat)
    requires OccursAt(s, w, i) && c < |w|
    ensures s[i + c] == w[c]
  {
    assert s[i..i + |w|][c] == w[c];
  }

  lemma {:induction false} NoneOfThem(s: string, words: seq<string>)
    requires forall i | 0 <= i < |words| :: !Contains(s, words[i])
    ensures !HasAny(s, words)
  {
    if |words| > 0 {
      forall i | 0 <= i < |words[1..]| ensures !Contains(s, words[1..][i]) { assert words[1..][i] == words[i + 1]; }
      NoneOfThem(s, words[1..]);
    }
  }

  lemma QuietIsNotBad(s: string)
    requires Quiet(s)
    ensures !BadText(s)
  {
    var l := Lower(s);
    LowerAt(s);
    forall i: nat ensures !OccursAt(l, "rtsp://", i) {
      if OccursAt(l, "rtsp://", i) {
        OccursChar(l, "rtsp://", i, 4);
        assert Marking(s, i + 4);
      }
    }
    forall i: nat ensures !OccursAt(l, "-----begin", i) {
      if OccursAt(l, "-----begin", i) {
        OccursChar(l, "-----begin", i, 0);
        OccursChar(l, "-----begin", i, 1);
        assert Marking(s, i);
      }
    }
    forall i: nat ensures !OccursAt(l, "bearer ", i) {
      if OccursAt(l, "bearer ", i) {
        OccursChar(l, "bearer ", i, 1);
        OccursChar(l, "bearer ", i, 2);
        assert Marking(s, i + 1);
      }
    }
    assert !Contains(l, "rtsp://") && !Contains(l, "-----begin") && !Contains(l, "bearer ");
    NoneOfThem(l, CREDENTIAL_SHAPES);
  }

  // The note the file carries.
  const NOTE_PARTS: seq<string> := [
    "No password, token or ", "camera URL is in this ", "file, and no person is ", "either. It describes a ",
    "building. Re-enter the ", "camera URLs and any ", "tokens after importing."]

  function Concat(parts: seq<string>): (s: string) {
    if |parts| == 0 then "" else parts[0] + Concat(parts[1..])
  }

  predicate QuietParts(parts: seq<string>) {
    |parts| > 0 ==>
      && Quiet(parts[0]) && (|parts| > 1 ==> |parts[0]| > 0 && parts[0][|parts[0]| - 1] == ' ')
      && QuietParts(parts[1..])
  }

  lemma {:induction false} ConcatQuiet(parts: seq<string>)
    requires QuietParts(parts)
    ensures Quiet(Concat(parts))
  {
    if |parts| > 0 {
      ConcatQuiet(parts[1..]);
      QuietConcat(parts[0], Concat(parts[1..]));
    }
  }

  lemma FirstPartsAreQuiet()
    ensures Quiet("No password, token or ") && Quiet("camera URL is in this ") && Quiet("file, and no person is ")
  {
  }

  lemma MiddlePartsAreQuiet()
    ensures Quiet("either. It describes a ") && Quiet("building. Re-enter the ")
  {
  }

  lemma LastPartsAreQuiet()
    ensures Quiet("camera URLs and any ") && Quiet("tokens after importing.")
  {
  }

  lemma NoteIsQuiet()
    ensures Quiet(Concat(NOTE_PARTS))
  {
    FirstPartsAreQuiet();
    MiddlePartsAreQuiet();
    LastPartsAreQuiet();
    ConcatQuiet(NOTE_PARTS);
  }

  lemma SecretNamesAreQuiet()
    ensures forall k | Secret(k) :: Quiet(k)
  {
    assert Quiet("ha_token") && Quiet("mqtt_password") && Quiet("diag_endpoint") && Quiet("local_token");
  }

  lemma QuietConcat(a: string, b: string)
    requires Quiet(a) && Quiet(b) && (b == "" || (|a| > 0 && a[|a| - 1] == ' '))
    ensures Quiet(a + b)
  {
    var s := a + b;
    forall i: nat | i < |s| ensures !Marking(s, i) {
      assert i < |a| ==> !Marking(a, i);
      assert i >= |a| ==> !Marking(b, i - |a|);
    }
  }

  // -- Rows and settings ----------------------------------------------------------------

  lemma {:induction false} PickFieldsHolds(row: seq<Property>, keys: seq<string>, f: Property)
    ensures f in PickFields(row, keys) <==> f.key in keys && Find(row, f.key) == Some(f.value) && f.value != Null
  {
    if |keys| > 0 {
      PickFieldsHolds(row, keys[1..], f);
      assert f.key in keys <==> f.key == keys[0] || f.key in keys[1..];
    }
  }

  // Nothing suspicious in the fields of a row that leave.
  ghost predicate CleanRow(row: Json, keys: seq<string>) {
    row.Obj? ==> forall k | k in keys && Find(row.fields, k).Some? :: Clean(Find(row.fields, k).value)
  }

  lemma PickClean(row: Json, keys: seq<string>)
    requires AllPlain(keys)
    ensures Clean(Pick(row, keys)) <==> CleanRow(row, keys)
  {
    CleanObject([]);
    CleanAtom(Null);
    if row.Obj? {
      var picked := PickFields(row.fields, keys);
      CleanObject(picked);
      forall f | f in picked ensures !BadKey(f.key) && f.key in keys && Find(row.fields, f.key) == Some(f.value) {
        PickFieldsHolds(row.fields, keys, f);
        AllPlainAt(keys, f.key);
      }
      forall k | k in keys && Find(row.fields, k).Some? && Find(row.fields, k).value != Null
        ensures Field(k, Find(row.fields, k).value) in picked
      {
        PickFieldsHolds(row.fields, keys, Field(k, Find(row.fields, k).value));
      }
    }
  }

  ghost predicate CleanRows(rows: seq<Json>, keys: seq<string>) {
    forall i | 0 <= i < |rows| :: CleanRow(rows[i], keys)
  }

  lemma PickAllClean(rows: seq<Json>, keys: seq<string>)
    requires AllPlain(keys)
    ensures Clean(Arr(PickAll(rows, keys))) <==> CleanRows(rows, keys)
  {
    var picked := PickAll(rows, keys);
    CleanList(picked);
    forall i | 0 <= i < |rows| ensures Clean(picked[i]) <==> CleanRow(rows[i], keys) {
      PickAllAt(rows, keys, i);
      PickClean(rows[i], keys);
    }
  }

  ghost predicate Distinct(d: seq<Property>) {
    forall i, j | 0 <= i < j < |d| :: d[i].key != d[j].key
  }

  lemma {:induction false} DistinctFind(d: seq<Property>, f: Property)
    requires Distinct(d)
    ensures f in d <==> Find(d, f.key) == Some(f.value)
  {
    if |d| > 0 {
      DistinctFind(d[1..], f);
      assert f in d <==> f == d[0] || f in d[1..];
    }
  }

  lemma {:induction false} PutFieldKeys(d: seq<Property>, k: string, v: Json, f: Property)
    requires f in PutField(d, k, v)
    ensures f.key == k || f in d
  {
    if |d| > 0 && d[0].key != k && f != d[0] { PutFieldKeys(d[1..], k, v, f); }
  }

  lemma {:induction false} PutFieldDistinct(d: seq<Property>, k: string, v: Json)
    requires Distinct(d)
    ensures Distinct(PutField(d, k, v))
  {
    if |d| > 0 && d[0].key != k {
      var rest := PutField(d[1..], k, v);
      PutFieldDistinct(d[1..], k, v);
      forall j | 0 <= j < |rest| ensures rest[j].key != d[0].key {
        PutFieldKeys(d[1..], k, v, rest[j]);
        if rest[j] in d[1..] {
          var q :| 0 <= q < |d[1..]| && d[1..][q] == rest[j];
          assert d[q + 1] == rest[j];
        }
      }
    }
  }

  lemma {:induction false} SettingsDistinct(rows: seq<SettingRow>)
    ensures Distinct(Settings(rows))
  {
    if |rows| > 0 {
      var before, s := rows[..|rows| - 1], rows[|rows| - 1];
      SettingsDistinct(before);
      if Travels(s) { PutFieldDistinct(Settings(before), s.key.value, s.value); }
    }
  }

  // A setting of that name leaves.
  predicate Leaves(rows: seq<SettingRow>, k: string) { k != "" && !Secret(k) && LastSetting(rows, k).Some? }

  ghost predicate CleanSettings(rows: seq<SettingRow>) {
    forall k | Leaves(rows, k) :: !BadKey(k) && Clean(LastSetting(rows, k).value)
  }

  lemma SettingsClean(rows: seq<SettingRow>)
    ensures Clean(Obj(Settings(rows))) <==> CleanSettings(rows)
  {
    var d := Settings(rows);
    CleanObject(d);
    SettingsDistinct(rows);
    forall f | f in d ensures Leaves(rows, f.key) && LastSetting(rows, f.key) == Some(f.value) {
      DistinctFind(d, f);
      SettingsExactly(rows, f.key);
    }
    forall k | Leaves(rows, k) ensures Field(k, LastSetting(rows, k).value) in d {
      SettingsExactly(rows, k);
      DistinctFind(d, Field(k, LastSetting(rows, k).value));
    }
  }

  lemma {:induction false} StringsAt(s: seq<string>, i: nat)
    requires i < |s|
    ensures Strings(s)[i] == Str(s[i])
  {
    if i > 0 { StringsAt(s[1..], i - 1); }
  }

  // The names of the secrets to supply again are themselves nothing suspicious.
  lemma SecretNamesClean(rows: seq<SettingRow>)
    ensures Clean(Arr(Strings(Sorted(SecretsNeeded(rows)))))
  {
    var names := Sorted(SecretsNeeded(rows));
    CleanList(Strings(names));
    SecretNamesAreQuiet();
    forall i | 0 <= i < |names| ensures Clean(Strings(names)[i]) {
      StringsAt(names, i);
      assert names[i] in names;
      SortedHolds(SecretsNeeded(rows), names[i]);
      SecretsNeededHolds(rows, names[i]);
      QuietIsNotBad(names[i]);
      CleanText(names[i]);
    }
  }

  // -- The finished file --------------------------------------------------------------------

  function SpacePart(x: Inputs): (v: Json) {
    Obj([Field("name", FieldOr(x.space, "name", Str(""))), Field("kind", FieldOr(x.space, "kind", Str("")))])
  }

  function HeadPart(x: Inputs): (r: seq<Property>) {
    [Field("wavr_config_version", Int(CONFIG_VERSION)), Field("exported_at", Str(x.now)),
     Field("space", SpacePart(x)), Field("house", OrEmpty(x.house))]
  }

  function ListPart(x: Inputs): (r: seq<Property>) {
    [Field("cameras", Arr(PickAll(x.cameras, CAMERA_FIELDS))), Field("nodes", Arr(PickAll(x.nodes, NODE_FIELDS))),
     Field("anchors", Arr(PickAll(x.anchors, ANCHOR_FIELDS))),
     Field("ha_mappings", Arr(PickAll(x.haMappings, HA_MAPPING_FIELDS))),
     Field("external_providers", Arr(PickAll(x.providers, PROVIDER_FIELDS)))]
  }

  function TailPart(x: Inputs): (r: seq<Property>) {
    [Field("topology", OrEmpty(x.topology)), Field("settings", Obj(Settings(x.settings))),
     Field("secrets_you_must_supply_again", Arr(Strings(Sorted(SecretsNeeded(x.settings))))),
     Field("note", Str(Concat(NOTE_PARTS)))]
  }

  // The document the export is, key by key.
  function FileOf(x: Inputs): (v: Json) { Obj(HeadPart(x) + ListPart(x) + TailPart(x)) }

  // It is the export the import reads.
  lemma FileIsExport(x: Inputs)
    ensures var d := Export(x);
            && HeadPart(x) == [Field("wavr_config_version", d.version), Field("exported_at", Str(d.exportedAt)),
                               Field("space", d.space.value), Field("house", d.house)]
            && ListPart(x) == [Field("cameras", d.cameras), Field("nodes", d.nodes), Field("anchors", d.anchors),
                               Field("ha_mappings", d.haMappings), Field("external_providers", d.providers)]
            && TailPart(x)[..3] == [Field("topology", d.topology), Field("settings", d.settings),
                                    Field("secrets_you_must_supply_again", d.secrets.value)]
  {
  }

  // Nothing suspicious in what the operator supplied and the file carries.
  ghost predicate CleanHead(x: Inputs) {
    && !BadText(x.now) && Clean(x.house)
    && Clean(FieldOr(x.space, "name", Str(""))) && Clean(FieldOr(x.space, "kind", Str("")))
  }

  ghost predicate CleanLists(x: Inputs) {
    && CleanRows(x.cameras, CAMERA_FIELDS) && CleanRows(x.nodes, NODE_FIELDS) && CleanRows(x.anchors, ANCHOR_FIELDS)
    && CleanRows(x.haMappings, HA_MAPPING_FIELDS) && CleanRows(x.providers, PROVIDER_FIELDS)
  }

  ghost predicate CleanInputs(x: Inputs) {
    CleanHead(x) && CleanLists(x) && Clean(x.topology) && CleanSettings(x.settings)
  }

  ghost predicate CleanFields(fields: seq<Property>) {
    forall i | 0 <= i < |fields| :: !BadKey(fields[i].key) && Clean(fields[i].value)
  }

  lemma PlainKeysAreGood(keys: seq<string>)
    requires AllPlain(keys)
    ensures GoodKeys(keys)
  {
    forall k | k in keys ensures !BadKey(k) { AllPlainAt(keys, k); }
  }

  lemma FileKeysAreGood()
    ensures GoodKeys(HEAD_KEYS) && GoodKeys(LIST_KEYS) && GoodKeys(TAIL_KEYS) && GoodKeys(SPACE_KEYS)
  {
    HeadKeysArePlain();
    ListKeysArePlain();
    TailKeysAreGood();
    CameraFieldsArePlain();
    PlainKeysAreGood(HEAD_KEYS);
    PlainKeysAreGood(LIST_KEYS);
    PlainKeysAreGood(SPACE_KEYS);
  }

  // Fields under good keys, with these values.
  ghost predicate HasValues(fields: seq<Property>, keys: seq<string>, values: seq<Json>) {
    && |fields| == |values| && GoodKeys(keys)
    && forall i | 0 <= i < |fields| :: fields[i].key in keys && fields[i].value == values[i]
  }

  ghost predicate AllClean(values: seq<Json>) { forall i | 0 <= i < |values| :: Clean(values[i]) }

  lemma GoodFields(fields: seq<Property>, keys: seq<string>, values: seq<Json>)
    requires HasValues(fields, keys, values)
    ensures CleanFields(fields) <==> AllClean(values)
  {
    if AllClean(values) {
      forall i | 0 <= i < |fields| ensures !BadKey(fields[i].key) && Clean(fields[i].value) {
        assert Clean(values[i]);
      }
    }
    if CleanFields(fields) {
      forall i | 0 <= i < |values| ensures Clean(values[i]) { assert Clean(fields[i].value); }
    }
  }

  function SpaceValues(x: Inputs): (r: seq<Json>) {
    [FieldOr(x.space, "name", Str("")), FieldOr(x.space, "kind", Str(""))]
  }

  function HeadValues(x: Inputs): (r: seq<Json>) {
    [Int(CONFIG_VERSION), Str(x.now), SpacePart(x), OrEmpty(x.house)]
  }

  function ListValues(x: Inputs): (r: seq<Json>) {
    [Arr(PickAll(x.cameras, CAMERA_FIELDS)), Arr(PickAll(x.nodes, NODE_FIELDS)),
     Arr(PickAll(x.anchors, ANCHOR_FIELDS)), Arr(PickAll(x.haMappings, HA_MAPPING_FIELDS)),
     Arr(PickAll(x.providers, PROVIDER_FIELDS))]
  }

  function TailValues(x: Inputs): (r: seq<Json>) {
    [OrEmpty(x.topology), Obj(Settings(x.settings)), Arr(Strings(Sorted(SecretsNeeded(x.settings)))),
     Str(Concat(NOTE_PARTS))]
  }

  lemma SpaceHasValues(x: Inputs)
    ensures HasValues(SpacePart(x).fields, SPACE_KEYS, SpaceValues(x))
  {
    FileKeysAreGood();
  }

  lemma HeadHasValues(x: Inputs)
    ensures HasValues(HeadPart(x), HEAD_KEYS, HeadValues(x))
  {
    FileKeysAreGood();
  }

  lemma ListsHaveValues(x: Inputs)
    ensures HasValues(ListPart(x), LIST_KEYS, ListValues(x))
  {
    FileKeysAreGood();
  }

  lemma TailHasValues(x: Inputs)
    ensures HasValues(TailPart(x), TAIL_KEYS, TailValues(x))
  {
    FileKeysAreGood();
  }

  lemma TwoClean(a: Json, b: Json)
    ensures AllClean([a, b]) <==> Clean(a) && Clean(b)
  {
    if AllClean([a, b]) { assert Clean([a, b][0]) && Clean([a, b][1]); }
  }

  lemma FourClean(a: Json, b: Json, c: Json, d: Json)
    ensures AllClean([a, b, c, d]) <==> Clean(a) && Clean(b) && Clean(c) && Clean(d)
  {
    var s := [a, b, c, d];
    if AllClean(s) { assert Clean(s[0]) && Clean(s[1]) && Clean(s[2]) && Clean(s[3]); }
  }

  lemma FiveClean(a: Json, b: Json, c: Json, d: Json, e: Json)
    ensures AllClean([a, b, c, d, e]) <==> Clean(a) && Clean(b) && Clean(c) && Clean(d) && Clean(e)
  {
    var s := [a, b, c, d, e];
    if AllClean(s) { assert Clean(s[0]) && Clean(s[1]) && Clean(s[2]) && Clean(s[3]) && Clean(s[4]); }
  }

  lemma SpaceCleanExactly(x: Inputs)
    ensures Clean(SpacePart(x)) <==> AllClean(SpaceValues(x))
  {
    SpaceHasValues(x);
    SpaceFields(SpacePart(x).fields, SPACE_KEYS, SpaceValues(x));
  }

  lemma SpaceFields(fields: seq<Property>, keys: seq<string>, values: seq<Json>)
    requires HasValues(fields, keys, values)
    ensures Clean(Obj(fields)) <==> AllClean(values)
  {
    GoodFields(fields, keys, values);
    CleanObject(fields);
    forall i | 0 <= i < |fields| ensures fields[i] in fields {}
  }

  lemma HeadCleanExactly(x: Inputs)
    ensures AllClean(HeadValues(x)) <==> CleanHead(x)
  {
    SpaceCleanExactly(x);
    TwoClean(SpaceValues(x)[0], SpaceValues(x)[1]);
    CleanAtom(Int(CONFIG_VERSION));
    CleanText(x.now);
    CleanOrEmpty(x.house);
    FourClean(Int(CONFIG_VERSION), Str(x.now), SpacePart(x), OrEmpty(x.house));
  }

  lemma ListsCleanExactly(x: Inputs)
    ensures AllClean(ListValues(x)) <==> CleanLists(x)
  {
    RowsCleanExactly(x);
    var v := ListValues(x);
    FiveClean(v[0], v[1], v[2], v[3], v[4]);
  }

  lemma RowsCleanExactly(x: Inputs)
    ensures Clean(Arr(PickAll(x.cameras, CAMERA_FIELDS))) <==> CleanRows(x.cameras, CAMERA_FIELDS)
    ensures Clean(Arr(PickAll(x.nodes, NODE_FIELDS))) <==> CleanRows(x.nodes, NODE_FIELDS)
    ensures Clean(Arr(PickAll(x.anchors, ANCHOR_FIELDS))) <==> CleanRows(x.anchors, ANCHOR_FIELDS)
    ensures Clean(Arr(PickAll(x.haMappings, HA_MAPPING_FIELDS))) <==> CleanRows(x.haMappings, HA_MAPPING_FIELDS)
    ensures Clean(Arr(PickAll(x.providers, PROVIDER_FIELDS))) <==> CleanRows(x.providers, PROVIDER_FIELDS)
  {
    CameraFieldsArePlain();
    NodeFieldsArePlain();
    AnchorFieldsArePlain();
    MappingFieldsArePlain();
    ProviderFieldsArePlain();
    PickAllClean(x.cameras, CAMERA_FIELDS);
    PickAllClean(x.nodes, NODE_FIELDS);
    PickAllClean(x.anchors, ANCHOR_FIELDS);
    PickAllClean(x.haMappings, HA_MAPPING_FIELDS);
    PickAllClean(x.providers, PROVIDER_FIELDS);
  }

  lemma TailCleanExactly(x: Inputs)
    ensures AllClean(TailValues(x)) <==> Clean(x.topology) && CleanSettings(x.settings)
  {
    CleanOrEmpty(x.topology);
    SettingsClean(x.settings);
    SecretNamesClean(x.settings);
    NoteIsClean();
    var v := TailValues(x);
    FourClean(v[0], v[1], v[2], v[3]);
  }

  lemma NoteIsClean()
    ensures Clean(Str(Concat(NOTE_PARTS)))
  {
    NoteIsQuiet();
    QuietIsNotBad(Concat(NOTE_PARTS));
    CleanText(Concat(NOTE_PARTS));
  }

  lemma FileCleanExactly(a: seq<Property>, b: seq<Property>, c: seq<Property>)
    ensures Clean(Obj(a + b + c)) <==> CleanFields(a) && CleanFields(b) && CleanFields(c)
  {
    var f := a + b + c;
    CleanObject(f);
    forall i | 0 <= i < |a| ensures f[i] == a[i] {}
    forall i | 0 <= i < |b| ensures f[|a| + i] == b[i] {}
    forall i | 0 <= i < |c| ensures f[|a| + |b| + i] == c[i] {}
    forall i | 0 <= i < |f| ensures f[i] in f {}
  }

  // The audit passes an export exactly when what the operator supplied has nothing
  // suspicious in it: no name and no word of the exporter's own ever stops a file, and
  // nothing suspicious that leaves gets through.
  lemma ExportAuditsExactly(x: Inputs)
    ensures Clean(FileOf(x)) <==> CleanInputs(x)
  {
    HeadCleanExactly(x);
    ListsCleanExactly(x);
    TailCleanExactly(x);
    HeadHasValues(x);
    ListsHaveValues(x);
    TailHasValues(x);
    GoodFields(HeadPart(x), HEAD_KEYS, HeadValues(x));
    GoodFields(ListPart(x), LIST_KEYS, ListValues(x));
    GoodFields(TailPart(x), TAIL_KEYS, TailValues(x));
    FileCleanExactly(HeadPart(x), ListPart(x), TailPart(x));
  }

  // The export as it is handed over: refused with the paths the audit found, or the
  // file.
  method HandOver(x: Inputs) returns (r: Result<Json, seq<string>>)
    ensures CleanInputs(x) ==> r == Ok(FileOf(x))
    ensures !CleanInputs(x) ==> r.Err? && r.error != [] && forall p :: p in r.error <==> SuspectPath(FileOf(x), "$", p)
  {
    ExportAuditsExactly(x);
    var leaks := Audit(FileOf(x));
    r := if leaks != [] then Err(leaks) else Ok(FileOf(x));
  }

  // -- The export planned on a Space ------------------------------------------------------

  // What the plan calls one of the Space's own anchors.
  function Placed(a: Json, env: Env): (e: Entry) {
    if !a.Obj? then Entry(Str(""), "")
    else
      var name, room := Lookup(a, "name"), Lookup(a, "room");
      Entry(if name == Null then Str("") else name,
            if !Truthy(room) then "" else if room.Str? then room.s else env.str(room))
  }

  lemma PlacedIs(a: Json, env: Env)
    ensures Pick(a, ANCHOR_FIELDS).Obj? && EntryOf(Pick(a, ANCHOR_FIELDS), env) == Placed(a, env)
  {
    PickExactly(a, ANCHOR_FIELDS, "name");
    PickExactly(a, ANCHOR_FIELDS, "room");
    assert ANCHOR_FIELDS[0] == "name" && ANCHOR_FIELDS[1] == "room";
  }

  // The Space's anchors whose room is among these, in order, or whose room is not.
  function Anchored(anchors: seq<Json>, rooms: set<string>, env: Env, among: bool): (r: seq<Entry>) {
    if |anchors| == 0 then []
    else
      var before := Anchored(anchors[..|anchors| - 1], rooms, env, among);
      var e := Placed(anchors[|anchors| - 1], env);
      if (e.room in rooms) == among then before + [e] else before
  }

  lemma RowsArePlaced(anchors: seq<Json>, env: Env)
    ensures var rows := PickAll(anchors, ANCHOR_FIELDS);
            AllObjects(rows) && forall i | 0 <= i < |rows| :: EntryOf(rows[i], env) == Placed(anchors[i], env)
  {
    var rows := PickAll(anchors, ANCHOR_FIELDS);
    forall i | 0 <= i < |rows| ensures rows[i].Obj? && EntryOf(rows[i], env) == Placed(anchors[i], env) {
      PickAllAt(anchors, ANCHOR_FIELDS, i);
      PlacedIs(anchors[i], env);
    }
  }

  lemma PickAllFront(rows: seq<Json>, keys: seq<string>)
    requires |rows| > 0
    ensures PickAll(rows, keys)[..|rows| - 1] == PickAll(rows[..|rows| - 1], keys)
  {
    forall i | 0 <= i < |rows| - 1 ensures PickAll(rows, keys)[i] == PickAll(rows[..|rows| - 1], keys)[i] {
      PickAllAt(rows, keys, i);
      PickAllAt(rows[..|rows| - 1], keys, i);
    }
  }

  lemma {:induction false} AnchoredSplits(anchors: seq<Json>, rooms: set<string>, env: Env)
    ensures AllObjects(PickAll(anchors, ANCHOR_FIELDS))
    ensures Splits(Anchored(anchors, rooms, env, true), Anchored(anchors, rooms, env, false),
                   PickAll(anchors, ANCHOR_FIELDS), rooms, env)
  {
    RowsArePlaced(anchors, env);
    if |anchors| > 0 {
      AnchoredSplits(anchors[..|anchors| - 1], rooms, env);
      PickAllFront(anchors, ANCHOR_FIELDS);
      AnchoredNext(anchors, PickAll(anchors, ANCHOR_FIELDS), rooms, env);
    }
  }

  lemma AnchoredNext(anchors: seq<Json>, rows: seq<Json>, rooms: set<string>, env: Env)
    requires |rows| == |anchors| > 0 && AllObjects(rows)
    requires EntryOf(rows[|rows| - 1], env) == Placed(anchors[|anchors| - 1], env)
    requires var front := anchors[..|anchors| - 1];
             Splits(Anchored(front, rooms, env, true), Anchored(front, rooms, env, false),
                    rows[..|rows| - 1], rooms, env)
    ensures Splits(Anchored(anchors, rooms, env, true), Anchored(anchors, rooms, env, false), rows, rooms, env)
  {
    var front := anchors[..|anchors| - 1];
    AnchoredStep(Anchored(front, rooms, env, true), Anchored(front, rooms, env, false), rows, rooms, env);
  }

  lemma AnchoredStep(w: seq<Entry>, s: seq<Entry>, rows: seq<Json>, rooms: set<string>, env: Env)
    requires |rows| > 0 && AllObjects(rows) && Splits(w, s, rows[..|rows| - 1], rooms, env)
    ensures var e := EntryOf(rows[|rows| - 1], env);
            if e.room in rooms then Splits(w + [e], s, rows, rooms, env) else Splits(w, s + [e], rows, rooms, env)
  {
    var e := EntryOf(rows[|rows| - 1], env);
    assert (w + [e])[..|w|] == w && (s + [e])[..|s|] == s;
  }

  lemma SameSpace(known: set<string>, rooms: set<string>, replaced: seq<string>, lost: seq<string>)
    requires SortedOf(replaced, known * rooms) && SortedOf(lost, known - rooms)
    ensures known == rooms ==> lost == [] && SortedOf(replaced, known)
  {
    assert known == rooms ==> known * rooms == known;
    if lost != [] { assert lost[0] in lost; }
  }

  // A camera comes back under its own name and in its own room.
  lemma CameraComesBack(c: Json)
    ensures Pick(c, CAMERA_FIELDS).Obj?
    ensures var back := CameraOf(Pick(c, CAMERA_FIELDS));
            && (c.Obj? && Lookup(c, "name") != Null ==> back.name == Lookup(c, "name"))
            && (c.Obj? && Lookup(c, "room") != Null ==> back.room == Lookup(c, "room"))
            && (!c.Obj? || Lookup(c, "name") == Null ==> back.name == Str(""))
            && (!c.Obj? || Lookup(c, "room") == Null ==> back.room == Str(""))
  {
    PickExactly(c, CAMERA_FIELDS, "name");
    PickExactly(c, CAMERA_FIELDS, "room");
    assert CAMERA_FIELDS[0] == "name" && CAMERA_FIELDS[1] == "room";
  }

  // An export planned on any Space writes exactly its anchors whose room its own floor
  // plan has, names exactly the others, and loses exactly the rooms that plan has not;
  // on the Space it came from it loses none.
  lemma ExportPlansBack(x: Inputs, known: set<string>, env: Env, p: Result<Plan, Failure>)
    requires IsPlan(Export(x), known, env, p) && Incoming(Export(x), env, true).Ok?
    ensures p.Ok?
    ensures var rooms := TextsOf(RoomNames(OrEmpty(x.house), true).value);
            && p.value.write == Anchored(x.anchors, rooms, env, true)
            && p.value.skipped == Anchored(x.anchors, rooms, env, false)
            && SortedOf(p.value.lost, known - rooms)
            && (known == rooms ==> p.value.lost == [] && SortedOf(p.value.replaced, known))
  {
    ExportPlans(x, known, env, p);
    var rooms := TextsOf(p.value.incoming);
    var rows := PickAll(x.anchors, ANCHOR_FIELDS);
    AnchoredSplits(x.anchors, rooms, env);
    SplitIsOne(p.value.write, p.value.skipped, Anchored(x.anchors, rooms, env, true),
               Anchored(x.anchors, rooms, env, false), rows, rooms, env);
    assert House(Export(x)) == OrEmpty(x.house);
    SameSpace(known, rooms, p.value.replaced, p.value.lost);
  }
}
