// What importing a configuration file would change, shown to a person, and what it
// would do, planned for the code that does it: preview_import and plan_import of
// backend/wavr/config_export.py.
module ConfigImport {
  import opened Prelude
  import opened StringOrder
  import opened Json
  import opened ConfigExport

  // What the module is handed or takes from elsewhere: the digest of a document,
  // str() of a JSON value, and the floor-plan validator if there is one.
  datatype Env = Env(digest: Payload -> string, str: Json -> string, validates: Option<Json -> bool>)

  // -- Rooms in a floor plan ----------------------------------------------------------------

  // What a loop over f.get(key, []) runs over; with the "or []" that the plan has and
  // the preview lacks, anything false counts as empty.
  function Iterated(f: Json, key: string, orEmpty: bool): (e: Option<seq<Json>>) {
    if !f.Obj? then None
    else
      var v := Find(f.fields, key);
      if v.None? then Some([])
      else if orEmpty && !Truthy(v.value) then Some([])
      else Elements(v.value)
  }

  function NamesOf(rooms: seq<Json>): (n: Option<seq<Json>>) {
    if |rooms| == 0 then Some([])
    else if !rooms[0].Obj? || NamesOf(rooms[1..]).None? then None
    else
      var name := Lookup(rooms[0], "name");
      Some((if Truthy(name) then [name] else []) + NamesOf(rooms[1..]).value)
  }

  function FloorNames(floors: seq<Json>, orEmpty: bool): (n: Option<seq<Json>>) {
    if |floors| == 0 then Some([])
    else
      var rooms := Iterated(floors[0], "rooms", orEmpty);
      if rooms.None? || NamesOf(rooms.value).None? || FloorNames(floors[1..], orEmpty).None? then None
      else Some(NamesOf(rooms.value).value + FloorNames(floors[1..], orEmpty).value)
  }

  function RoomNames(house: Json, orEmpty: bool): (n: Option<seq<Json>>) {
    var floors := Iterated(house, "floors", orEmpty);
    if floors.None? then None else FloorNames(floors.value, orEmpty)
  }

  // A list a plan may hold under a key: absent, null, or a list of objects.
  ghost predicate ListsObjects(f: Json, key: string) {
    f.Obj? && (Lookup(f, key) == Null || (Lookup(f, key).Arr? && AllObjects(Lookup(f, key).items)))
  }

  function ObjectsUnder(f: Json, key: string): (s: seq<Json>)
    requires f.Obj?
  {
    if Lookup(f, key).Arr? then Lookup(f, key).items else []
  }

  // A floor plan of floors that have rooms.
  ghost predicate IsFloorPlan(house: Json) {
    ListsObjects(house, "floors") && forall i | 0 <= i < |ObjectsUnder(house, "floors")| ::
      ListsObjects(ObjectsUnder(house, "floors")[i], "rooms")
  }

  ghost predicate NamesRoom(rooms: seq<Json>, n: Json) {
    Truthy(n) && exists j | 0 <= j < |rooms| :: rooms[j].Obj? && Lookup(rooms[j], "name") == n
  }

  // Some room of some floor has that name.
  ghost predicate HasRoom(floors: seq<Json>, n: Json) {
    exists i | 0 <= i < |floors| :: floors[i].Obj? && NamesRoom(ObjectsUnder(floors[i], "rooms"), n)
  }

  lemma {:induction false} NamesOfExactly(rooms: seq<Json>, n: Json)
    requires AllObjects(rooms)
    ensures NamesOf(rooms).Some? && (n in NamesOf(rooms).value <==> NamesRoom(rooms, n))
  {
    if |rooms| > 0 {
      NamesOfExactly(rooms[1..], n);
      forall j | 0 <= j < |rooms[1..]| ensures rooms[1..][j] == rooms[j + 1] {}
      if NamesRoom(rooms, n) && Lookup(rooms[0], "name") != n {
        var j :| 0 <= j < |rooms| && Lookup(rooms[j], "name") == n;
        assert rooms[1..][j - 1] == rooms[j];
      }
    }
  }

  lemma {:induction false} FloorNamesExactly(floors: seq<Json>, n: Json)
    requires AllObjects(floors) && forall i | 0 <= i < |floors| :: ListsObjects(floors[i], "rooms")
    ensures FloorNames(floors, true).Some? && (n in FloorNames(floors, true).value <==> HasRoom(floors, n))
  {
    if |floors| > 0 {
      FloorNamesExactly(floors[1..], n);
      NamesOfExactly(ObjectsUnder(floors[0], "rooms"), n);
      forall i | 0 <= i < |floors[1..]| ensures floors[1..][i] == floors[i + 1] {}
      if HasRoom(floors, n) && !NamesRoom(ObjectsUnder(floors[0], "rooms"), n) {
        var i :| 0 <= i < |floors| && NamesRoom(ObjectsUnder(floors[i], "rooms"), n);
        assert floors[1..][i - 1] == floors[i];
      }
    }
  }

  // What is read from a floor plan is exactly the names its rooms have.
  lemma RoomNamesExactly(house: Json, n: Json)
    requires IsFloorPlan(house)
    ensures var names := RoomNames(house, true);
            names.Some? && (n in names.value <==> HasRoom(ObjectsUnder(house, "floors"), n))
  {
    FloorNamesExactly(ObjectsUnder(house, "floors"), n);
  }

  // A key that is there with a value that is false and cannot be iterated over.
  predicate Bare(f: Json, key: string) {
    f.Obj? && Find(f.fields, key).Some?
    && var v := Find(f.fields, key).value;
       !Truthy(v) && Elements(v).None?
  }

  predicate HasBare(house: Json) {
    Bare(house, "floors")
    || var floors := Iterated(house, "floors", true);
       floors.Some? && exists i | 0 <= i < |floors.value| :: Bare(floors.value[i], "rooms")
  }

  lemma {:induction false} FloorNamesAgree(floors: seq<Json>)
    ensures FloorNames(floors, false)
            == if exists i | 0 <= i < |floors| :: Bare(floors[i], "rooms") then None else FloorNames(floors, true)
  {
    if |floors| > 0 {
      FloorNamesAgree(floors[1..]);
      if i :| 0 <= i < |floors| && Bare(floors[i], "rooms") {
        if i > 0 { assert floors[1..][i - 1] == floors[i]; }
      }
      if i :| 0 <= i < |floors[1..]| && Bare(floors[1..][i], "rooms") {
        assert floors[i + 1] == floors[1..][i];
      }
    }
  }

  // The preview reads the rooms the plan reads, except that it fails where the file
  // has a null, a false or a zero for its floors or for some floor's rooms.
  lemma RoomsAgreeExactly(house: Json)
    ensures RoomNames(house, false) == if HasBare(house) then None else RoomNames(house, true)
  {
    var floors := Iterated(house, "floors", true);
    if floors.Some? { FloorNamesAgree(floors.value); }
  }

  predicate Hashable(names: seq<Json>) {
    forall i | 0 <= i < |names| :: !names[i].Arr? && !names[i].Obj?
  }

  function TextsOf(names: seq<Json>): (s: set<string>) {
    set i | 0 <= i < |names| && names[i].Str? :: names[i].s
  }

  // -- The shared reading -------------------------------------------------------------------------

  function House(d: Payload): (h: Json)
    requires d.Document?
  {
    OrEmpty(d.house)
  }

  // The incoming room names, or why there are none.
  function Incoming(d: Payload, env: Env, orEmpty: bool): (r: Result<seq<Json>, Failure>) {
    if Check(d).Some? then Err(Refused(Check(d).value))
    else if !House(d).Obj? then Err(Uncaught)
    else if env.validates.Some? && Truthy(Lookup(House(d), "floors")) && !env.validates.value(House(d)) then
      Err(Refused(UnreadableFloorPlan))
    else
      var names := RoomNames(House(d), orEmpty);
      if names.None? || !Hashable(names.value) then Err(Uncaught) else Ok(names.value)
  }

  lemma TextsOfExactly(names: seq<Json>, x: string)
    ensures x in TextsOf(names) <==> Str(x) in names
  {
    if Str(x) in names {
      var i :| 0 <= i < |names| && names[i] == Str(x);
      assert names[i].s == x;
    }
  }

  // A file has readable rooms exactly when it is taken, its house is an object the
  // validator passes, and every room name is something a set can hold; the validator is
  // asked only about a house with floors.
  lemma IncomingExactly(d: Payload, env: Env, orEmpty: bool)
    ensures var asked := Check(d).None? && House(d).Obj? && env.validates.Some? && Truthy(Lookup(House(d), "floors"));
            && (Incoming(d, env, orEmpty).Ok? <==>
                  && Check(d).None? && House(d).Obj? && (asked ==> env.validates.value(House(d)))
                  && RoomNames(House(d), orEmpty).Some?
                  && forall n | n in RoomNames(House(d), orEmpty).value :: !n.Arr? && !n.Obj?)
            && (Incoming(d, env, orEmpty) == Err(Refused(UnreadableFloorPlan)) <==>
                  asked && !env.validates.value(House(d)))
            && (Incoming(d, env, orEmpty).Ok? ==> Some(Incoming(d, env, orEmpty).value) == RoomNames(House(d), orEmpty))
  {
    if Check(d).None? && House(d).Obj? && RoomNames(House(d), orEmpty).Some? {
      HashableExactly(RoomNames(House(d), orEmpty).value);
    }
    CheckNames(d);
  }

  lemma HashableExactly(names: seq<Json>)
    ensures Hashable(names) <==> forall n | n in names :: !n.Arr? && !n.Obj?
  {
    if forall n | n in names :: !n.Arr? && !n.Obj? {
      forall i | 0 <= i < |names| ensures !names[i].Arr? && !names[i].Obj? { assert names[i] in names; }
    }
  }

  // The check knows nothing of floor plans.
  lemma CheckNames(d: Payload)
    ensures Check(d) != Some(UnreadableFloorPlan)
  {
  }

  function ListOf(v: Json): (s: seq<Json>) { if v.Arr? then v.items else [] }

  // -- Preview ----------------------------------------------------------------------------------------

  datatype Preview = Preview(digest: string, space: Option<Json>, incoming: seq<Json>,
                             replaced: seq<string>, lost: seq<string>,
                             anchorsIncoming: nat, anchorsExisting: nat, camerasIncoming: nat, secrets: Option<Json>)

  ghost predicate IsPreview(d: Payload, known: set<string>, existingAnchors: nat, env: Env,
                            r: Result<Preview, Failure>) {
    var names := Incoming(d, env, false);
    && (names.Err? ==> r == Err(names.error))
    && (names.Ok? ==>
          && r.Ok?
          && r.value.digest == env.digest(d) && r.value.space == d.space && r.value.secrets == d.secrets
          && r.value.incoming == names.value
          && SortedOf(r.value.replaced, known * TextsOf(names.value))
          && SortedOf(r.value.lost, known - TextsOf(names.value))
          && r.value.anchorsIncoming == |ListOf(d.anchors)| && r.value.anchorsExisting == existingAnchors
          && r.value.camerasIncoming == |ListOf(d.cameras)|)
  }

  method PreviewImport(d: Payload, known: set<string>, existingAnchors: nat, env: Env)
    returns (r: Result<Preview, Failure>)
    ensures IsPreview(d, known, existingAnchors, env, r)
  {
    var names := Incoming(d, env, false);
    if names.Err? { return Err(names.error); }
    var incoming := TextsOf(names.value);
    var replaced := Sort(known * incoming);
    var lost := Sort(known - incoming);
    r := Ok(Preview(env.digest(d), d.space, names.value, replaced, lost, |ListOf(d.anchors)|, existingAnchors,
                    |ListOf(d.cameras)|, d.secrets));
  }

  // -- Plan ---------------------------------------------------------------------------------------------

  datatype Entry = Entry(name: Json, room: string)
  datatype Camera = Camera(name: Json, room: Json)

  datatype Plan = Plan(digest: string, space: Option<Json>, house: Json, incoming: seq<Json>,
                       replaced: seq<string>, lost: seq<string>, write: seq<Entry>, skipped: seq<Entry>,
                       cameras: seq<Camera>, nodes: seq<Json>, haMappings: seq<Json>, providers: seq<Json>,
                       settings: seq<Property>, secrets: Option<Json>)

  function EntryOf(a: Json, env: Env): (e: Entry)
    requires a.Obj?
  {
    var room := Lookup(a, "room");
    Entry(FieldOr(a.fields, "name", Str("")),
          if !Truthy(room) then "" else if room.Str? then room.s else env.str(room))
  }

  function CameraOf(c: Json): (r: Camera)
    requires c.Obj?
  {
    Camera(FieldOr(c.fields, "name", Str("")), FieldOr(c.fields, "room", Str("")))
  }

  predicate AllObjects(rows: seq<Json>) { forall i | 0 <= i < |rows| :: rows[i].Obj? }

  // w and s, each in order, are all of the rows.
  ghost predicate Interleaves(w: seq<Entry>, s: seq<Entry>, rows: seq<Json>, env: Env)
    requires AllObjects(rows)
  {
    if |rows| == 0 then w == [] && s == []
    else
      var rest, e := rows[..|rows| - 1], EntryOf(rows[|rows| - 1], env);
      || (|w| > 0 && w[|w| - 1] == e && Interleaves(w[..|w| - 1], s, rest, env))
      || (|s| > 0 && s[|s| - 1] == e && Interleaves(w, s[..|s| - 1], rest, env))
  }

  ghost predicate Splits(w: seq<Entry>, s: seq<Entry>, rows: seq<Json>, rooms: set<string>, env: Env)
    requires AllObjects(rows)
  {
    && Interleaves(w, s, rows, env)
    && (forall i | 0 <= i < |w| :: w[i].room in rooms)
    && (forall i | 0 <= i < |s| :: s[i].room !in rooms)
  }

  // There is one such split, and it loses nothing.
  lemma {:induction false} SplitIsOne(
      w: seq<Entry>, s: seq<Entry>, u: seq<Entry>, v: seq<Entry>, rows: seq<Json>, rooms: set<string>, env: Env)
    requires AllObjects(rows) && Splits(w, s, rows, rooms, env) && Splits(u, v, rows, rooms, env)
    ensures w == u && s == v && |w| + |s| == |rows|
  {
    if |rows| > 0 {
      var rest, e := rows[..|rows| - 1], EntryOf(rows[|rows| - 1], env);
      if e.room in rooms {
        assert |w| > 0 && w[|w| - 1] == e && |u| > 0 && u[|u| - 1] == e;
        SplitIsOne(w[..|w| - 1], s, u[..|u| - 1], v, rest, rooms, env);
        assert w == w[..|w| - 1] + [e] && u == u[..|u| - 1] + [e];
      } else {
        assert |s| > 0 && s[|s| - 1] == e && |v| > 0 && v[|v| - 1] == e;
        SplitIsOne(w, s[..|s| - 1], u, v[..|v| - 1], rest, rooms, env);
        assert s == s[..|s| - 1] + [e] && v == v[..|v| - 1] + [e];
      }
    }
  }

  // The plan goes on past the rooms exactly when every anchor and camera is an object
  // and the settings are one or are nothing.
  predicate Executable(d: Payload)
    requires d.Document?
  {
    AllObjects(ListOf(d.anchors)) && AllObjects(ListOf(d.cameras)) && (d.settings.Obj? || !Truthy(d.settings))
  }

  lemma ExecutableExactly(d: Payload)
    requires d.Document?
    ensures Executable(d) <==>
              && (d.anchors.Arr? ==> forall a | a in d.anchors.items :: a.Obj?)
              && (d.cameras.Arr? ==> forall c | c in d.cameras.items :: c.Obj?)
              && (d.settings.Obj?
                  || d.settings in {Null, Bool(false), Int(0), Float(0.0), Str(""), Arr([])})
  {
    AllObjectsExactly(ListOf(d.anchors));
    AllObjectsExactly(ListOf(d.cameras));
  }

  lemma AllObjectsExactly(rows: seq<Json>)
    ensures AllObjects(rows) <==> forall r | r in rows :: r.Obj?
  {
    if forall r | r in rows :: r.Obj? {
      forall i | 0 <= i < |rows| ensures rows[i].Obj? { assert rows[i] in rows; }
    }
  }

  ghost predicate IsPlan(d: Payload, known: set<string>, env: Env, r: Result<Plan, Failure>) {
    var names := Incoming(d, env, true);
    && (names.Err? ==> r == Err(names.error))
    && (names.Ok? ==>
          && (r.Ok? <==> Executable(d)) && (r.Err? ==> r.error == Uncaught)
          && (r.Ok? ==> Plans(d, known, env, names.value, r.value)))
  }

  ghost predicate Plans(d: Payload, known: set<string>, env: Env, names: seq<Json>, p: Plan)
    requires d.Document? && Executable(d)
  {
    && p.digest == env.digest(d) && p.space == d.space && p.secrets == d.secrets && p.house == House(d)
    && p.incoming == names
    && SortedOf(p.replaced, known * TextsOf(names)) && SortedOf(p.lost, known - TextsOf(names))
    && Splits(p.write, p.skipped, ListOf(d.anchors), TextsOf(names), env)
    && |p.cameras| == |ListOf(d.cameras)|
    && (forall i | 0 <= i < |p.cameras| :: p.cameras[i] == CameraOf(ListOf(d.cameras)[i]))
    && p.nodes == ListOf(d.nodes) && p.haMappings == ListOf(d.haMappings) && p.providers == ListOf(d.providers)
    && p.settings == if d.settings.Obj? then d.settings.fields else []
  }

  // The anchors, each put with those to write or with those whose room is not coming.
  method SplitAnchors(rows: seq<Json>, rooms: set<string>, env: Env) returns (ok: bool, w: seq<Entry>, s: seq<Entry>)
    ensures ok <==> AllObjects(rows)
    ensures ok ==> Splits(w, s, rows, rooms, env)
  {
    w, s := [], [];
    for i := 0 to |rows|
      invariant AllObjects(rows[..i])
      invariant Splits(w, s, rows[..i], rooms, env)
    {
      if !rows[i].Obj? { return false, w, s; }
      var e := EntryOf(rows[i], env);
      assert rows[..i + 1][..i] == rows[..i] && rows[..i + 1][i] == rows[i];
      if e.room in rooms {
        ghost var was := w;
        w := w + [e];
        assert w[..|w| - 1] == was;
      } else {
        ghost var was := s;
        s := s + [e];
        assert s[..|s| - 1] == was;
      }
    }
    assert rows[..|rows|] == rows;
    ok := true;
  }

  method ListCameras(rows: seq<Json>) returns (ok: bool, out: seq<Camera>)
    ensures ok <==> AllObjects(rows)
    ensures ok ==> |out| == |rows| && forall i | 0 <= i < |rows| :: out[i] == CameraOf(rows[i])
  {
    out := [];
    for i := 0 to |rows|
      invariant |out| == i && forall j | 0 <= j < i :: rows[j].Obj? && out[j] == CameraOf(rows[j])
    {
      if !rows[i].Obj? { return false, out; }
      out := out + [CameraOf(rows[i])];
    }
    ok := true;
  }

  method PlanImport(d: Payload, known: set<string>, env: Env) returns (r: Result<Plan, Failure>)
    ensures IsPlan(d, known, env, r)
  {
    var names := Incoming(d, env, true);
    if names.Err? { return Err(names.error); }
    var rooms := TextsOf(names.value);
    var readable, write, skipped := SplitAnchors(ListOf(d.anchors), rooms, env);
    if !readable { return Err(Uncaught); }
    var replaced := Sort(known * rooms);
    var lost := Sort(known - rooms);
    var listed, cameras := ListCameras(ListOf(d.cameras));
    if !listed || (!d.settings.Obj? && Truthy(d.settings)) { return Err(Uncaught); }
    r := Ok(Plan(env.digest(d), d.space, House(d), names.value, replaced, lost, write, skipped, cameras,
                 ListOf(d.nodes), ListOf(d.haMappings), ListOf(d.providers),
                 if d.settings.Obj? then d.settings.fields else [], d.secrets));
  }

  // -- The two agree -----------------------------------------------------------------------------------------

  // A preview and a plan of one file against one Space report the same rooms, counts
  // and digest; and the rooms there are now are each replaced or lost, never both.
  lemma PreviewAgreesWithPlan(d: Payload, known: set<string>, existingAnchors: nat, env: Env,
                              v: Result<Preview, Failure>, p: Result<Plan, Failure>)
    requires IsPreview(d, known, existingAnchors, env, v) && IsPlan(d, known, env, p) && v.Ok? && p.Ok?
    ensures v.value.digest == p.value.digest && v.value.space == p.value.space && v.value.secrets == p.value.secrets
    ensures v.value.incoming == p.value.incoming
    ensures v.value.replaced == p.value.replaced && v.value.lost == p.value.lost
    ensures v.value.anchorsIncoming == |p.value.write| + |p.value.skipped|
    ensures v.value.camerasIncoming == |p.value.cameras|
    ensures forall x :: x in known <==> x in p.value.replaced || x in p.value.lost
    ensures forall x | x in p.value.replaced :: x !in p.value.lost
  {
    RoomsAgreeExactly(House(d));
    var rooms := TextsOf(p.value.incoming);
    SortedOfIsOne(v.value.replaced, p.value.replaced, known * rooms);
    SortedOfIsOne(v.value.lost, p.value.lost, known - rooms);
    SplitIsOne(p.value.write, p.value.skipped, p.value.write, p.value.skipped, ListOf(d.anchors), rooms, env);
    assert known == known * rooms + (known - rooms);
  }

  // A file that plans is one that previews exactly when it has no null, false or zero
  // where floors or rooms belong.
  lemma PlannedPreviewsExactly(d: Payload, known: set<string>, existingAnchors: nat, env: Env,
                               v: Result<Preview, Failure>, p: Result<Plan, Failure>)
    requires IsPreview(d, known, existingAnchors, env, v) && IsPlan(d, known, env, p) && p.Ok?
    ensures v.Ok? <==> !HasBare(House(d))
  {
    RoomsAgreeExactly(House(d));
  }

  // A Space's own export, within the cap and with a readable floor plan, always plans;
  // and the plan accounts for every anchor, camera, node, mapping and provider of it.
  lemma ExportPlans(x: Inputs, known: set<string>, env: Env, p: Result<Plan, Failure>)
    requires IsPlan(Export(x), known, env, p) && Incoming(Export(x), env, true).Ok?
    ensures p.Ok?
    ensures |p.value.write| + |p.value.skipped| == |x.anchors| && |p.value.cameras| == |x.cameras|
    ensures p.value.nodes == PickAll(x.nodes, NODE_FIELDS)
    ensures p.value.haMappings == PickAll(x.haMappings, HA_MAPPING_FIELDS)
    ensures p.value.providers == PickAll(x.providers, PROVIDER_FIELDS)
    ensures p.value.settings == Settings(x.settings)
  {
    var d := Export(x);
    forall i | 0 <= i < |x.anchors| ensures ListOf(d.anchors)[i].Obj? {
      PickAllAt(x.anchors, ANCHOR_FIELDS, i);
      PickExactly(x.anchors[i], ANCHOR_FIELDS, "");
    }
    forall i | 0 <= i < |x.cameras| ensures ListOf(d.cameras)[i].Obj? {
      PickAllAt(x.cameras, CAMERA_FIELDS, i);
      PickExactly(x.cameras[i], CAMERA_FIELDS, "");
    }
    assert Executable(d);
    SplitIsOne(p.value.write, p.value.skipped, p.value.write, p.value.skipped, ListOf(d.anchors),
               TextsOf(p.value.incoming), env);
  }
}
