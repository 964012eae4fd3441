// Named places in a Space and the external ids bound to them
// (backend/wavr/anchors.py).
module Anchors {
  import opened Prelude
  import opened Text
  import opened PolygonText

  // -- Names ------------------------------------------------------------------------------

  function FirstWord(s: string): (w: string)
    ensures w <= s
  {
    if |s| == 0 || IsSpace(s[0]) then "" else [s[0]] + FirstWord(s[1..])
  }

  lemma {:induction false} LStripShorter(s: string)
    ensures |LStrip(s)| <= |s|
  {
    if |s| > 0 && IsSpace(s[0]) { LStripShorter(s[1..]); }
  }

  // split(): the words between runs of white space.
  function Words(s: string): (ws: seq<string>)
    decreases |s|
  {
    LStripShorter(s);
    LStripped(s);
    var t := LStrip(s);
    if |t| == 0 then [] else
      var w := FirstWord(t);
      [w] + Words(t[|w|..])
  }

  function JoinWords(ws: seq<string>): (s: string) {
    if |ws| == 0 then "" else if |ws| == 1 then ws[0] else ws[0] + [' '] + JoinWords(ws[1..])
  }

  predicate IsWord(w: string) { w != "" && forall i | 0 <= i < |w| :: !IsSpace(w[i]) }

  lemma {:induction false} FirstWordOf(w: string, rest: string)
    requires forall i | 0 <= i < |w| :: !IsSpace(w[i])
    requires rest == "" || IsSpace(rest[0])
    ensures FirstWord(w + rest) == w
  {
    if |w| > 0 {
      assert (w + rest)[0] == w[0] && (w + rest)[1..] == w[1..] + rest;
      FirstWordOf(w[1..], rest);
      assert [w[0]] + w[1..] == w;
    } else {
      assert w + rest == rest;
    }
  }

  lemma {:induction false} FirstWordIsWord(s: string)
    ensures forall i | 0 <= i < |FirstWord(s)| :: !IsSpace(FirstWord(s)[i])
  {
    if |s| > 0 && !IsSpace(s[0]) { FirstWordIsWord(s[1..]); }
  }

  lemma {:induction false} WordsAreWords(s: string)
    ensures forall i | 0 <= i < |Words(s)| :: IsWord(Words(s)[i])
    decreases |s|
  {
    LStripShorter(s);
    LStripped(s);
    var t := LStrip(s);
    if |t| > 0 {
      var w := FirstWord(t);
      FirstWordIsWord(t);
      WordsAreWords(t[|w|..]);
    }
  }

  lemma {:induction false} WordsOfJoin(ws: seq<string>)
    requires forall i | 0 <= i < |ws| :: IsWord(ws[i])
    ensures Words(JoinWords(ws)) == ws
  {
    if |ws| == 1 {
      var w := ws[0];
      FirstWordOf(w, "");
      assert w + "" == w && w[|w|..] == "";
      assert LStrip(w) == w;
    } else if |ws| > 1 {
      var w, rest := ws[0], JoinWords(ws[1..]);
      WordsOfJoin(ws[1..]);
      var s := w + [' '] + rest;
      FirstWordOf(w, [' '] + rest);
      assert s == w + ([' '] + rest) && s[|w|..] == [' '] + rest;
      assert LStrip(s) == s;
      assert ws == [w] + ws[1..];
    }
  }

  datatype Field = AnchorName | RoomName | ProviderId | ExternalId

  datatype AnchorError =
    | Required(what: Field)
    | TooLong(what: Field)
    | UnknownKind | NotFiniteXY | NotFiniteZ
    | TooFewPoints | TooManyPoints | MalformedPoint | OutsideRoom
    | NoSuchAnchor | UnknownOrigin | IdTaken

  const MAX_NAME := 80
  const MAX_EXTERNAL := 200
  const MAX_NOTE := 400
  const MAX_POLYGON := 64
  const ROOM_SLACK_M := 0.5

  function Clean(text: string, what: Field, limit: nat): (r: Result<string, AnchorError>) {
    var s := JoinWords(Words(text));
    if s == "" then Err(Required(what)) else if |s| > limit then Err(TooLong(what)) else Ok(s)
  }

  predicate Tidy(text: string, limit: nat) {
    text != "" && |text| <= limit && JoinWords(Words(text)) == text
  }

  // Cleaning a second time changes nothing: what is stored is tidy, and only tidy
  // text comes through unchanged.
  lemma CleanIsTidy(text: string, what: Field, limit: nat)
    ensures Clean(text, what, limit).Ok? ==> Tidy(Clean(text, what, limit).value, limit)
    ensures Clean(text, what, limit) == Ok(text) <==> Tidy(text, limit)
  {
    WordsAreWords(text);
    WordsOfJoin(Words(text));
  }

  // No white space at either end, and inside it only single blanks.
  predicate Spaced(text: string) {
    && |text| > 0 && !IsSpace(text[0]) && !IsSpace(text[|text| - 1])
    && forall i | 0 <= i < |text| - 1 && IsSpace(text[i]) :: text[i] == ' ' && !IsSpace(text[i + 1])
  }

  lemma {:induction false} JoinIsSpaced(ws: seq<string>)
    requires |ws| > 0 && forall i | 0 <= i < |ws| :: IsWord(ws[i])
    ensures Spaced(JoinWords(ws))
  {
    var w := ws[0];
    if |ws| > 1 {
      JoinIsSpaced(ws[1..]);
      var rest := JoinWords(ws[1..]);
      var s := w + [' '] + rest;
      forall i | 0 <= i < |s| - 1 && IsSpace(s[i]) ensures s[i] == ' ' && !IsSpace(s[i + 1]) {
        if i > |w| { assert s[i] == rest[i - |w| - 1] && s[i + 1] == rest[i - |w|]; }
      }
    }
  }

  lemma {:induction false} FirstWordEnds(s: string)
    ensures |FirstWord(s)| < |s| ==> IsSpace(s[|FirstWord(s)|])
    ensures |s| > 0 && !IsSpace(s[0]) ==> FirstWord(s) != ""
  {
    if |s| > 0 && !IsSpace(s[0]) { FirstWordEnds(s[1..]); }
  }

  lemma SpacedTail(s: string, n: nat)
    requires Spaced(s) && n < |s| && IsSpace(s[n])
    ensures n + 1 < |s| && s[n] == ' ' && Spaced(s[n + 1..])
  {
    var r := s[n + 1..];
    forall i | 0 <= i < |r| - 1 && IsSpace(r[i]) ensures r[i] == ' ' && !IsSpace(r[i + 1]) {
      assert s[n + 1 + i] == r[i] && s[n + 1 + i + 1] == r[i + 1];
    }
  }

  lemma {:induction false} SpacedIsJoined(s: string) returns (ws: seq<string>)
    requires Spaced(s)
    ensures |ws| > 0 && JoinWords(ws) == s && forall i | 0 <= i < |ws| :: IsWord(ws[i])
    decreases |s|
  {
    var w := FirstWord(s);
    FirstWordEnds(s);
    FirstWordIsWord(s);
    if |w| == |s| {
      ws := [w];
    } else {
      SpacedTail(s, |w|);
      var rest := s[|w| + 1..];
      var more := SpacedIsJoined(rest);
      ws := [w] + more;
      assert ws[1..] == more && s == w + [' '] + rest;
    }
  }

  // Text is tidy exactly when it is so spaced and within the limit.
  lemma TidyExactly(text: string, limit: nat)
    ensures Tidy(text, limit) <==> Spaced(text) && |text| <= limit
  {
    if Tidy(text, limit) {
      WordsAreWords(text);
      JoinIsSpaced(Words(text));
    }
    if Spaced(text) {
      var ws := SpacedIsJoined(text);
      WordsOfJoin(ws);
    }
  }

  // -- Geometry ------------------------------------------------------------------------------

  // What float() makes of a value: a finite number, or nothing usable.
  datatype Num = Finite(r: real) | NotFinite

  function Max(s: seq<real>): (m: real)
    requires |s| > 0
  {
    if |s| == 1 || s[0] >= Max(s[1..]) then s[0] else Max(s[1..])
  }

  function Min(s: seq<real>): (m: real)
    requires |s| > 0
  {
    if |s| == 1 || s[0] <= Min(s[1..]) then s[0] else Min(s[1..])
  }

  function Xs(poly: seq<Point>): (s: seq<real>)
    ensures |s| == |poly|
  {
    if |poly| == 0 then [] else [poly[0].0] + Xs(poly[1..])
  }

  function Ys(poly: seq<Point>): (s: seq<real>)
    ensures |s| == |poly|
  {
    if |poly| == 0 then [] else [poly[0].1] + Ys(poly[1..])
  }

  predicate InRoom(room: seq<Point>, p: Point) {
    |room| < 3 ||
    var w, h := Max(Xs(room)) - Min(Xs(room)), Max(Ys(room)) - Min(Ys(room));
    -ROOM_SLACK_M <= p.0 <= w + ROOM_SLACK_M && -ROOM_SLACK_M <= p.1 <= h + ROOM_SLACK_M
  }

  lemma {:induction false} Extremes(s: seq<real>)
    requires |s| > 0
    ensures Max(s) in s && Min(s) in s
    ensures forall i | 0 <= i < |s| :: Min(s) <= s[i] <= Max(s)
  {
    if |s| > 1 {
      Extremes(s[1..]);
      forall i | 0 <= i < |s| ensures Min(s) <= s[i] <= Max(s) {
        if i > 0 { assert s[1..][i - 1] == s[i]; }
      }
    }
  }

  lemma {:induction false} CoordinatesAt(poly: seq<Point>, i: nat)
    requires i < |poly|
    ensures Xs(poly)[i] == poly[i].0 && Ys(poly)[i] == poly[i].1
  {
    if i > 0 { CoordinatesAt(poly[1..], i - 1); }
  }

  // A point is accepted exactly when the room has too few corners to tell, or along
  // each axis the point is at most the slack below zero and at most the slack above
  // the distance between some two of the corners.
  lemma InRoomExactly(room: seq<Point>, p: Point)
    ensures InRoom(room, p) <==>
              || |room| < 3
              || (&& -ROOM_SLACK_M <= p.0
                  && (exists i, j | 0 <= i < |room| && 0 <= j < |room| :: p.0 <= room[i].0 - room[j].0 + ROOM_SLACK_M)
                  && -ROOM_SLACK_M <= p.1
                  && (exists i, j | 0 <= i < |room| && 0 <= j < |room| :: p.1 <= room[i].1 - room[j].1 + ROOM_SLACK_M))
  {
    if |room| >= 3 { InRoomOfThree(room, p); }
  }

  lemma InRoomOfThree(room: seq<Point>, p: Point)
    requires |room| >= 3
    ensures InRoom(room, p) <==>
              && -ROOM_SLACK_M <= p.0
              && (exists i, j | 0 <= i < |room| && 0 <= j < |room| :: p.0 <= room[i].0 - room[j].0 + ROOM_SLACK_M)
              && -ROOM_SLACK_M <= p.1
              && (exists i, j | 0 <= i < |room| && 0 <= j < |room| :: p.1 <= room[i].1 - room[j].1 + ROOM_SLACK_M)
  {
    SpreadReached(Xs(room), p.0);
    SpreadReached(Ys(room), p.1);
    forall i | 0 <= i < |room| ensures Xs(room)[i] == room[i].0 && Ys(room)[i] == room[i].1 { CoordinatesAt(room, i); }
    var xs, ys := Xs(room), Ys(room);
    assert forall i, j | 0 <= i < |room| && 0 <= j < |room| :: xs[i] - xs[j] == room[i].0 - room[j].0;
    assert forall i, j | 0 <= i < |room| && 0 <= j < |room| :: ys[i] - ys[j] == room[i].1 - room[j].1;
  }

  lemma SpreadReached(s: seq<real>, v: real)
    requires |s| > 0
    ensures v <= Max(s) - Min(s) + ROOM_SLACK_M
            <==> exists i, j | 0 <= i < |s| && 0 <= j < |s| :: v <= s[i] - s[j] + ROOM_SLACK_M
  {
    Extremes(s);
    var i :| 0 <= i < |s| && s[i] == Max(s);
    var j :| 0 <= j < |s| && s[j] == Min(s);
    assert s[i] - s[j] == Max(s) - Min(s);
  }

  datatype Kind = Logical | Spot | Area

  // The geometry create() stores for its arguments, or what is wrong with them.
  datatype Geometry = Geometry(x: Option<real>, y: Option<real>, z: Option<real>, polygon: seq<Point>)
  const NOWHERE := Geometry(None, None, None, [])

  function PointGeometry(x: Num, y: Num, z: Option<Num>, room: seq<Point>): (g: Result<Geometry, AnchorError>) {
    if !(x.Finite? && y.Finite?) then Err(NotFiniteXY)
    else if z.Some? && z.value.NotFinite? then Err(NotFiniteZ)
    else if !InRoom(room, (x.r, y.r)) then Err(OutsideRoom)
    else Ok(Geometry(Some(x.r), Some(y.r), if z.Some? then Some(z.value.r) else None, []))
  }

  predicate IsPair(p: seq<Num>) { |p| == 2 && p[0].Finite? && p[1].Finite? }

  function Pairs(ps: seq<seq<Num>>): (poly: seq<Point>)
    requires forall i | 0 <= i < |ps| :: IsPair(ps[i])
    ensures |poly| == |ps|
  {
    if |ps| == 0 then []
    else
      assert IsPair(ps[0]);
      [(ps[0][0].r, ps[0][1].r)] + Pairs(ps[1..])
  }

  function AreaGeometry(polygon: seq<seq<Num>>, room: seq<Point>): (g: Result<Geometry, AnchorError>) {
    if |polygon| < 3 then Err(TooFewPoints)
    else if |polygon| > MAX_POLYGON then Err(TooManyPoints)
    else if exists i | 0 <= i < |polygon| :: !IsPair(polygon[i]) then Err(MalformedPoint)
    else
      var poly := Pairs(polygon);
      if exists i | 0 <= i < |poly| :: !InRoom(room, poly[i]) then Err(OutsideRoom)
      else Ok(NOWHERE.(polygon := poly))
  }

  // -- Tables ---------------------------------------------------------------------------------

  type Id = string

  datatype Origin = Declared | Imported
  datatype Row = Row(name: string, room: string, level: int, kind: Kind,
                     x: Option<real>, y: Option<real>, z: Option<real>, polygon: string,
                     note: string, created: int, updated: int)
  datatype Key = Key(anchor: Id, provider: string, external: string)
  datatype Link = Link(origin: Origin, created: int)
  datatype Tables = Tables(anchors: map<Id, Row>, links: map<Key, Link>)

  datatype Draft = Draft(name: string, room: string, level: int, kind: Option<Kind>,
                         x: Num, y: Num, z: Option<Num>, polygon: seq<seq<Num>>, note: string,
                         roomPolygon: seq<Point>)

  // An anchor as a reader gets it; bound names each external id once.
  datatype Anchor = Anchor(id: Id, name: string, room: string, level: int, kind: Kind,
                           x: Option<real>, y: Option<real>, z: Option<real>, polygon: seq<Point>,
                           note: string, created: int, updated: int, bound: map<(string, string), Origin>)

  datatype Op =
    | Create(id: Id, draft: Draft, now: int)
    | Rename(id: Id, name: string, now: int)
    | Move(id: Id, room: string, level: Option<int>, now: int)
    | Place(id: Id, x: Num, y: Num, z: Option<Num>, roomPolygon: seq<Point>, now: int)
    | Delete(id: Id)
    | Bind(id: Id, provider: string, external: string, origin: Option<Origin>, now: int)
    | Unbind(id: Id, provider: string, external: string)

  function NoteOf(text: string): (n: string)
    ensures |n| <= MAX_NOTE
  {
    var s := JoinWords(Words(text));
    if |s| <= MAX_NOTE then s else s[..MAX_NOTE]
  }

  function GeometryOf(kind: Kind, d: Draft): (g: Result<Geometry, AnchorError>) {
    match kind
    case Spot => PointGeometry(d.x, d.y, d.z, d.roomPolygon)
    case Area => AreaGeometry(d.polygon, d.roomPolygon)
    case Logical => Ok(NOWHERE)
  }

  function RowOf(d: Draft, now: int): (r: Result<(Row, seq<Point>), AnchorError>) {
    var name := Clean(d.name, AnchorName, MAX_NAME);
    var room := Clean(d.room, RoomName, MAX_NAME);
    if name.Err? then Err(name.error)
    else if room.Err? then Err(room.error)
    else if d.kind.None? then Err(UnknownKind)
    else
      var g := GeometryOf(d.kind.value, d);
      if g.Err? then Err(g.error)
      else Ok((Row(name.value, room.value, d.level, d.kind.value, g.value.x, g.value.y, g.value.z,
                   Dump(g.value.polygon), NoteOf(d.note), now, now), g.value.polygon))
  }

  // What a write is refused for, if anything.
  function Fault(t: Tables, op: Op): (e: Option<AnchorError>) {
    match op
    case Create(id, d, now) =>
      var r := RowOf(d, now);
      if r.Err? then Some(r.error) else if id in t.anchors then Some(IdTaken) else None
    case Rename(id, name, _) =>
      var n := Clean(name, AnchorName, MAX_NAME);
      if n.Err? then Some(n.error) else if id !in t.anchors then Some(NoSuchAnchor) else None
    case Move(id, room, _, _) =>
      var r := Clean(room, RoomName, MAX_NAME);
      if r.Err? then Some(r.error) else if id !in t.anchors then Some(NoSuchAnchor) else None
    case Place(id, x, y, z, room, _) =>
      if id !in t.anchors then Some(NoSuchAnchor)
      else
        var g := PointGeometry(x, y, z, room);
        if g.Err? then Some(g.error) else None
    case Bind(id, p, e, origin, _) =>
      var cp, ce := Clean(p, ProviderId, MAX_NAME), Clean(e, ExternalId, MAX_EXTERNAL);
      if id !in t.anchors then Some(NoSuchAnchor)
      else if cp.Err? then Some(cp.error)
      else if ce.Err? then Some(ce.error)
      else if origin.None? then Some(UnknownOrigin)
      else None
    case _ => None
  }

  // The tables after a write; a refused one changes nothing.
  function After(t: Tables, op: Op): (u: Tables) {
    if Fault(t, op).Some? then t
    else
      match op
      case Create(id, d, now) => t.(anchors := t.anchors[id := RowOf(d, now).value.0])
      case Rename(id, name, now) =>
        t.(anchors := t.anchors[id := t.anchors[id].(name := Clean(name, AnchorName, MAX_NAME).value, updated := now)])
      case Move(id, room, level, now) =>
        var was := t.anchors[id];
        t.(anchors := t.anchors[id :=
          was.(room := Clean(room, RoomName, MAX_NAME).value,
                level := if level.Some? then level.value else was.level,
                kind := Logical, x := None, y := None, z := None, polygon := "", updated := now)])
      case Place(id, x, y, z, room, now) =>
        var g := PointGeometry(x, y, z, room).value;
        t.(anchors := t.anchors[id :=
          t.anchors[id].(kind := Spot, x := g.x, y := g.y, z := g.z, polygon := "", updated := now)])
      case Delete(id) =>
        Tables(t.anchors - {id}, map k | k in t.links && k.anchor != id :: t.links[k])
      case Bind(id, p, e, origin, now) =>
        var k := BoundKey(id, p, e);
        if k in t.links then t else t.(links := t.links[k := Link(origin.value, now)])
      case Unbind(id, p, e) => t.(links := t.links - {Key(id, p, e)})
  }

  // The key a binding is stored under: cleaned text.
  function BoundKey(id: Id, provider: string, external: string): (k: Key) {
    Key(id, JoinWords(Words(provider)), JoinWords(Words(external)))
  }

  function Run(ops: seq<Op>): (t: Tables) {
    if |ops| == 0 then Tables(map[], map[]) else After(Run(ops[..|ops| - 1]), ops[|ops| - 1])
  }

  // -- What every run keeps ---------------------------------------------------------------------

  // Kind decides geometry.
  ghost predicate Shaped(r: Row) {
    match r.kind
    case Logical => r.x.None? && r.y.None? && r.z.None? && r.polygon == ""
    case Spot => r.x.Some? && r.y.Some? && r.polygon == ""
    case Area => r.x.None? && r.y.None? && r.z.None? && IsArea(r.polygon)
  }

  ghost predicate IsArea(polygon: string) {
    exists poly {:trigger Dump(poly)} :: 3 <= |poly| <= MAX_POLYGON && polygon == Dump(poly)
  }

  ghost predicate RowOk(r: Row) {
    Tidy(r.name, MAX_NAME) && Tidy(r.room, MAX_NAME) && |r.note| <= MAX_NOTE && Shaped(r)
  }

  // A mapping names an anchor there is, under a tidy external id.
  predicate LinkOk(t: Tables, k: Key) {
    k.anchor in t.anchors && Tidy(k.provider, MAX_NAME) && Tidy(k.external, MAX_EXTERNAL)
  }

  ghost predicate Inv(t: Tables) {
    && (forall id | id in t.anchors :: RowOk(t.anchors[id]))
    && (forall k | k in t.links :: LinkOk(t, k))
  }

  lemma RowOfOk(d: Draft, now: int)
    requires RowOf(d, now).Ok?
    ensures RowOk(RowOf(d, now).value.0)
  {
    CleanIsTidy(d.name, AnchorName, MAX_NAME);
    CleanIsTidy(d.room, RoomName, MAX_NAME);
    GeometryShaped(d.kind.value, d);
  }

  // The geometry checked for a kind is the one that kind has, stored or not.
  lemma GeometryShaped(kind: Kind, d: Draft)
    requires GeometryOf(kind, d).Ok?
    ensures var g := GeometryOf(kind, d).value;
            match kind
            case Logical => g == NOWHERE
            case Spot => g.x.Some? && g.y.Some? && g.polygon == []
            case Area => g.x.None? && g.y.None? && g.z.None? && 3 <= |g.polygon| <= MAX_POLYGON
  {
  }

  lemma AfterKeepsRows(t: Tables, op: Op)
    requires Inv(t)
    ensures forall id | id in After(t, op).anchors :: RowOk(After(t, op).anchors[id])
  {
    var u := After(t, op);
    if op.id in u.anchors { WrittenRowOk(t, op); }
    forall id | id in u.anchors && id != op.id ensures RowOk(u.anchors[id]) {
      assert id in t.anchors && u.anchors[id] == t.anchors[id];
    }
  }

  lemma WrittenRowOk(t: Tables, op: Op)
    requires Inv(t) && op.id in After(t, op).anchors
    ensures RowOk(After(t, op).anchors[op.id])
  {
    if Fault(t, op).None? {
      match op
      case Create(id, d, now) => RowOfOk(d, now);
      case Rename(id, name, now) => RenamedOk(t.anchors[id], name, now);
      case Move(id, room, level, now) => MovedOk(t.anchors[id], room);
      case _ =>
    }
  }

  lemma RenamedOk(r: Row, name: string, now: int)
    requires RowOk(r) && Clean(name, AnchorName, MAX_NAME).Ok?
    ensures RowOk(r.(name := Clean(name, AnchorName, MAX_NAME).value, updated := now))
  {
    CleanIsTidy(name, AnchorName, MAX_NAME);
  }

  lemma MovedOk(r: Row, room: string)
    requires RowOk(r) && Clean(room, RoomName, MAX_NAME).Ok?
    ensures forall level: int, now: int ::
              RowOk(r.(room := Clean(room, RoomName, MAX_NAME).value, level := level, kind := Logical,
                       x := None, y := None, z := None, polygon := "", updated := now))
  {
    CleanIsTidy(room, RoomName, MAX_NAME);
  }

  lemma AfterKeepsLinks(t: Tables, op: Op)
    requires Inv(t)
    ensures forall k | k in After(t, op).links :: LinkOk(After(t, op), k)
  {
    forall k | k in After(t, op).links ensures LinkOk(After(t, op), k) {
      if k in t.links {
        assert LinkOk(t, k);
      } else {
        BoundKeyTidy(op.id, op.provider, op.external);
      }
    }
  }

  lemma BoundKeyTidy(id: Id, provider: string, external: string)
    requires Clean(provider, ProviderId, MAX_NAME).Ok? && Clean(external, ExternalId, MAX_EXTERNAL).Ok?
    ensures var k := BoundKey(id, provider, external);
            Tidy(k.provider, MAX_NAME) && Tidy(k.external, MAX_EXTERNAL)
  {
    CleanIsTidy(provider, ProviderId, MAX_NAME);
    CleanIsTidy(external, ExternalId, MAX_EXTERNAL);
  }

  lemma {:induction false} RunKeepsInv(ops: seq<Op>)
    ensures Inv(Run(ops))
  {
    if |ops| > 0 {
      var t := Run(ops[..|ops| - 1]);
      RunKeepsInv(ops[..|ops| - 1]);
      AfterKeepsRows(t, ops[|ops| - 1]);
      AfterKeepsLinks(t, ops[|ops| - 1]);
    }
  }

  // -- Readers -------------------------------------------------------------------------------------

  function BoundTo(t: Tables, id: Id): (m: map<(string, string), Origin>) {
    map k | k in t.links && k.anchor == id :: (k.provider, k.external) := t.links[k].origin
  }

  function Hydrated(t: Tables, id: Id): (a: Option<Anchor>) {
    if id !in t.anchors then None
    else
      var r := t.anchors[id];
      Some(Anchor(id, r.name, r.room, r.level, r.kind, r.x, r.y, r.z, Load(r.polygon), r.note, r.created, r.updated,
                  BoundTo(t, id)))
  }

  // Whatever calls came before, an anchor that is read has the geometry of its kind.
  lemma KindDecidesGeometry(ops: seq<Op>, id: Id)
    requires id in Run(ops).anchors
    ensures var a := Hydrated(Run(ops), id).value;
            match a.kind
            case Logical => a.x.None? && a.y.None? && a.z.None? && a.polygon == []
            case Spot => a.x.Some? && a.y.Some? && a.polygon == []
            case Area => a.x.None? && a.y.None? && a.z.None? && 3 <= |a.polygon| <= 64
  {
    RunKeepsInv(ops);
    var r := Run(ops).anchors[id];
    assert RowOk(r);
    PolygonRead(r);
  }

  lemma PolygonRead(r: Row)
    requires Shaped(r)
    ensures if r.kind.Area? then 3 <= |Load(r.polygon)| <= MAX_POLYGON else Load(r.polygon) == []
  {
    if r.kind.Area? {
      var poly :| 3 <= |poly| <= MAX_POLYGON && r.polygon == Dump(poly);
      LoadDump(poly);
    } else {
      LoadDump([]);
      assert Dump([]) == "";
    }
  }

  // The anchors an external id is bound to.
  function Resolved(t: Tables, provider: string, external: string): (ids: set<Id>) {
    set k | k in t.links && k.provider == provider && k.external == external :: k.anchor
  }

  // Every id it resolves to is an anchor there is, and one that lists it.
  lemma ResolvedAreAnchors(ops: seq<Op>, provider: string, external: string, id: Id)
    ensures id in Resolved(Run(ops), provider, external)
            <==> id in Run(ops).anchors && (provider, external) in Hydrated(Run(ops), id).value.bound
  {
    RunKeepsInv(ops);
    var t := Run(ops);
    var k := Key(id, provider, external);
    if k in t.links { assert LinkOk(t, k); }
  }

  // bind stores the external id with its white space tidied and resolve looks it up
  // as written, so the id just bound is found under the caller's own text exactly when
  // that text was tidy.
  lemma BoundResolvesExactly(ops: seq<Op>, id: Id, provider: string, external: string, origin: Option<Origin>, now: int)
    requires Fault(Run(ops), Bind(id, provider, external, origin, now)).None?
    ensures var t := After(Run(ops), Bind(id, provider, external, origin, now));
            && id in Resolved(t, JoinWords(Words(provider)), JoinWords(Words(external)))
            && (id in Resolved(t, provider, external) <==> Tidy(provider, MAX_NAME) && Tidy(external, MAX_EXTERNAL))
  {
    var op := Bind(id, provider, external, origin, now);
    var t := After(Run(ops), op);
    RunKeepsInv(ops);
    AfterKeepsLinks(Run(ops), op);
    var k := BoundKey(id, provider, external);
    assert k in t.links && LinkOk(t, k);
    if id in Resolved(t, provider, external) {
      var j :| j in t.links && j.provider == provider && j.external == external && j.anchor == id;
      assert LinkOk(t, j);
    }
  }

  // unbind takes the caller's text as written too: unbinding what was just bound, with
  // the same text, removes it exactly when that text was tidy.
  lemma UnbindsExactly(t: Tables, id: Id, provider: string, external: string, origin: Option<Origin>, now: int)
    requires Fault(t, Bind(id, provider, external, origin, now)).None?
    ensures BoundKey(id, provider, external)
            !in After(After(t, Bind(id, provider, external, origin, now)), Unbind(id, provider, external)).links
            <==> Tidy(provider, MAX_NAME) && Tidy(external, MAX_EXTERNAL)
  {
    BoundKeyIsRawExactly(id, provider, external);
    var u := After(t, Bind(id, provider, external, origin, now));
    assert BoundKey(id, provider, external) in u.links;
    assert After(u, Unbind(id, provider, external)).links == u.links - {Key(id, provider, external)};
  }

  lemma BoundKeyIsRawExactly(id: Id, provider: string, external: string)
    requires Clean(provider, ProviderId, MAX_NAME).Ok? && Clean(external, ExternalId, MAX_EXTERNAL).Ok?
    ensures BoundKey(id, provider, external) == Key(id, provider, external)
            <==> Tidy(provider, MAX_NAME) && Tidy(external, MAX_EXTERNAL)
  {
    CleanIsTidy(provider, ProviderId, MAX_NAME);
    CleanIsTidy(external, ExternalId, MAX_EXTERNAL);
  }

  // Binding what is not bound and unbinding it leaves the tables as they were.
  lemma BindThenUnbind(t: Tables, id: Id, provider: string, external: string, origin: Option<Origin>, now: int)
    requires BoundKey(id, provider, external) !in t.links
    ensures var k := BoundKey(id, provider, external);
            After(After(t, Bind(id, provider, external, origin, now)), Unbind(id, k.provider, k.external)) == t
  {
    var k := BoundKey(id, provider, external);
    assert t.links - {k} == t.links;
    var u := After(t, Bind(id, provider, external, origin, now));
    assert u.links - {k} == t.links;
  }

  // Once deleted, nothing resolves to the anchor, and every other anchor keeps the ids
  // bound to it.
  lemma DeleteUnbinds(t: Tables, id: Id, provider: string, external: string)
    ensures Resolved(After(t, Delete(id)), provider, external) == Resolved(t, provider, external) - {id}
  {
    var u := After(t, Delete(id));
    forall x ensures x in Resolved(u, provider, external) <==> x in Resolved(t, provider, external) && x != id {
      if x in Resolved(t, provider, external) && x != id {
        var k :| k in t.links && k.provider == provider && k.external == external && k.anchor == x;
        assert k in u.links;
      }
    }
  }

  // A write about one anchor leaves every other as it was, its mappings included.
  lemma OthersUntouched(t: Tables, op: Op, id: Id)
    requires id != op.id
    ensures Hydrated(After(t, op), id) == Hydrated(t, id)
  {
    var u := After(t, op);
    assert id in u.anchors <==> id in t.anchors;
    forall k: Key | k.anchor == id ensures k in u.links <==> k in t.links {}
    assert forall k | k in t.links && k.anchor == id :: u.links[k] == t.links[k];
    BoundToSame(t, u, id);
  }

  lemma BoundToSame(t: Tables, u: Tables, id: Id)
    requires forall k: Key | k.anchor == id :: k in u.links <==> k in t.links
    requires forall k | k in t.links && k.anchor == id :: u.links[k] == t.links[k]
    ensures BoundTo(u, id) == BoundTo(t, id)
  {
    var a, b := BoundTo(t, id), BoundTo(u, id);
    forall x ensures (x in a <==> x in b) && (x in a ==> a[x] == b[x]) {
      var k := Key(id, x.0, x.1);
      assert x in a <==> k in t.links;
      assert x in b <==> k in u.links;
    }
  }

  // create returns the polygon it was given; a later read returns the stored one. They
  // agree exactly when no coordinate has a fifth decimal.
  lemma CreateReadsBackExactly(t: Tables, id: Id, d: Draft, now: int)
    requires Fault(t, Create(id, d, now)).None?
    ensures var given := RowOf(d, now).value.1;
            Hydrated(After(t, Create(id, d, now)), id).value.polygon == given
            <==> forall i | 0 <= i < |given| :: FourDecimals(given[i])
  {
    var (row, given) := RowOf(d, now).value;
    assert After(t, Create(id, d, now)).anchors[id] == row && row.polygon == Dump(given);
    LoadDumpExactly(given);
  }

  // -- The object ------------------------------------------------------------------------------------

  // When an external id was bound to an anchor.
  function BoundAt(t: Tables, id: Id, provider: string, external: string): (ts: int) {
    var k := Key(id, provider, external);
    if k in t.links then t.links[k].created else 0
  }

  // The rows of the query, as anchors, are what the id resolves to.
  lemma RowsAreResolved(t: Tables, rows: seq<Key>, out: seq<Anchor>, provider: string, external: string)
    requires forall k :: k in rows <==> k in t.links && k.provider == provider && k.external == external
    requires forall i, j | 0 <= i < j < |rows| ::
               rows[i] != rows[j] && t.links[rows[i]].created <= t.links[rows[j]].created
    requires |out| == |rows| && forall i | 0 <= i < |rows| :: out[i].id == rows[i].anchor
    ensures forall id :: (exists i | 0 <= i < |out| :: out[i].id == id) <==> id in Resolved(t, provider, external)
    ensures forall i, j | 0 <= i < j < |out| ::
              && out[i].id != out[j].id
              && BoundAt(t, out[i].id, provider, external) <= BoundAt(t, out[j].id, provider, external)
  {
    forall i | 0 <= i < |rows| ensures rows[i] == Key(out[i].id, provider, external) && rows[i] in t.links {
      assert rows[i] in rows;
    }
    forall id | id in Resolved(t, provider, external) ensures exists i | 0 <= i < |out| :: out[i].id == id {
      var k := Key(id, provider, external);
      assert k in rows;
      var i :| 0 <= i < |rows| && rows[i] == k;
      assert out[i].id == id;
    }
  }

  class AnchorStore {
    var anchors: map<Id, Row>
    var links: map<Key, Link>

    function T(): Tables
      reads this
    {
      Tables(anchors, links)
    }

    constructor ()
      ensures T() == Run([])
    {
      anchors, links := map[], map[];
    }

    method Create(id: Id, d: Draft, now: int) returns (r: Result<Anchor, AnchorError>)
      modifies this
      ensures T() == After(old(T()), Op.Create(id, d, now))
      ensures r.Err? <==> Fault(old(T()), Op.Create(id, d, now)).Some?
      ensures r.Err? ==> Some(r.error) == Fault(old(T()), Op.Create(id, d, now))
      ensures r.Ok? ==> r.value == Hydrated(T(), id).value.(polygon := RowOf(d, now).value.1, bound := map[])
    {
      var row := RowOf(d, now);
      if row.Err? { return Err(row.error); }
      if id in anchors { return Err(IdTaken); }
      var (stored, polygon) := row.value;
      anchors := anchors[id := stored];
      r := Ok(Anchor(id, stored.name, stored.room, stored.level, stored.kind, stored.x, stored.y, stored.z, polygon,
                     stored.note, now, now, map[]));
    }

    method Rename(id: Id, name: string, now: int) returns (r: Result<Anchor, AnchorError>)
      modifies this
      ensures T() == After(old(T()), Op.Rename(id, name, now))
      ensures r == if Fault(old(T()), Op.Rename(id, name, now)).Some?
                   then Err(Fault(old(T()), Op.Rename(id, name, now)).value)
                   else Ok(Hydrated(T(), id).value)
    {
      var n := Clean(name, AnchorName, MAX_NAME);
      if n.Err? { return Err(n.error); }
      if id !in anchors { return Err(NoSuchAnchor); }
      anchors := anchors[id := anchors[id].(name := n.value, updated := now)];
      r := Ok(Hydrated(T(), id).value);
    }

    method Move(id: Id, room: string, level: Option<int>, now: int) returns (r: Result<Anchor, AnchorError>)
      modifies this
      ensures T() == After(old(T()), Op.Move(id, room, level, now))
      ensures r == if Fault(old(T()), Op.Move(id, room, level, now)).Some?
                   then Err(Fault(old(T()), Op.Move(id, room, level, now)).value)
                   else Ok(Hydrated(T(), id).value)
    {
      var to := Clean(room, RoomName, MAX_NAME);
      if to.Err? { return Err(to.error); }
      if id !in anchors { return Err(NoSuchAnchor); }
      var row := anchors[id];
      anchors := anchors[id := row.(room := to.value, level := if level.Some? then level.value else row.level,
                                    kind := Logical, x := None, y := None, z := None, polygon := "", updated := now)];
      r := Ok(Hydrated(T(), id).value);
    }

    method Place(id: Id, x: Num, y: Num, z: Option<Num>, room: seq<Point>, now: int)
      returns (r: Result<Anchor, AnchorError>)
      modifies this
      ensures T() == After(old(T()), Op.Place(id, x, y, z, room, now))
      ensures r == if Fault(old(T()), Op.Place(id, x, y, z, room, now)).Some?
                   then Err(Fault(old(T()), Op.Place(id, x, y, z, room, now)).value)
                   else Ok(Hydrated(T(), id).value)
    {
      if id !in anchors { return Err(NoSuchAnchor); }
      var g := PointGeometry(x, y, z, room);
      if g.Err? { return Err(g.error); }
      anchors := anchors[id := anchors[id].(kind := Spot, x := g.value.x, y := g.value.y, z := g.value.z,
                                            polygon := "", updated := now)];
      r := Ok(Hydrated(T(), id).value);
    }

    method Delete(id: Id) returns (found: bool)
      modifies this
      ensures T() == After(old(T()), Op.Delete(id)) && found == (id in old(anchors))
    {
      found := id in anchors;
      anchors := anchors - {id};
      links := map k | k in links && k.anchor != id :: links[k];
    }

    method Bind(id: Id, provider: string, external: string, origin: Option<Origin>, now: int)
      returns (r: Result<Key, AnchorError>)
      modifies this
      ensures T() == After(old(T()), Op.Bind(id, provider, external, origin, now))
      ensures r == if Fault(old(T()), Op.Bind(id, provider, external, origin, now)).Some?
                   then Err(Fault(old(T()), Op.Bind(id, provider, external, origin, now)).value)
                   else Ok(BoundKey(id, provider, external))
    {
      if id !in anchors { return Err(NoSuchAnchor); }
      var p := Clean(provider, ProviderId, MAX_NAME);
      if p.Err? { return Err(p.error); }
      var e := Clean(external, ExternalId, MAX_EXTERNAL);
      if e.Err? { return Err(e.error); }
      if origin.None? { return Err(UnknownOrigin); }
      var k := Key(id, p.value, e.value);
      if k !in links { links := links[k := Link(origin.value, now)]; }
      r := Ok(k);
    }

    method Unbind(id: Id, provider: string, external: string) returns (found: bool)
      modifies this
      ensures T() == After(old(T()), Op.Unbind(id, provider, external))
      ensures found == (Key(id, provider, external) in old(links))
    {
      found := Key(id, provider, external) in links;
      links := links - {Key(id, provider, external)};
    }

    // The anchors an external id is bound to, each once, in the order they were bound.
    method Resolve(provider: string, external: string) returns (out: seq<Anchor>)
      requires Inv(T())
      ensures forall i | 0 <= i < |out| :: Hydrated(T(), out[i].id) == Some(out[i])
      ensures forall id :: (exists i | 0 <= i < |out| :: out[i].id == id) <==> id in Resolved(T(), provider, external)
      ensures forall i, j | 0 <= i < j < |out| ::
                && out[i].id != out[j].id
                && BoundAt(T(), out[i].id, provider, external) <= BoundAt(T(), out[j].id, provider, external)
    {
      var rows := OldestFirst(set k | k in links && k.provider == provider && k.external == external);
      forall i | 0 <= i < |rows| ensures rows[i].anchor in anchors {
        assert rows[i] in rows;
        assert LinkOk(T(), rows[i]);
      }
      out := ReadEach(rows);
      RowsAreResolved(T(), rows, out, provider, external);
    }

    method ReadEach(rows: seq<Key>) returns (out: seq<Anchor>)
      requires forall i | 0 <= i < |rows| :: rows[i].anchor in anchors
      ensures |out| == |rows|
      ensures forall i | 0 <= i < |out| :: out[i].id == rows[i].anchor && Hydrated(T(), out[i].id) == Some(out[i])
    {
      out := [];
      for n := 0 to |rows|
        invariant |out| == n
        invariant forall i | 0 <= i < n :: out[i].id == rows[i].anchor && Hydrated(T(), out[i].id) == Some(out[i])
      {
        out := out + [Hydrated(T(), rows[n].anchor).value];
      }
    }

    // ORDER BY created_ts.
    method OldestFirst(keys: set<Key>) returns (s: seq<Key>)
      requires forall k | k in keys :: k in links
      ensures forall k :: k in s <==> k in keys
      ensures forall i, j | 0 <= i < j < |s| :: s[i] != s[j] && links[s[i]].created <= links[s[j]].created
    {
      var todo := keys;
      s := [];
      while todo != {}
        invariant todo <= keys
        invariant forall k :: k in s <==> k in keys && k !in todo
        invariant forall i, j | 0 <= i < j < |s| :: s[i] != s[j] && links[s[i]].created <= links[s[j]].created
        invariant forall i, k | 0 <= i < |s| && k in todo :: links[s[i]].created <= links[k].created
        decreases todo
      {
        var k := Earliest(todo);
        assert k !in s;
        todo := todo - {k};
        s := s + [k];
      }
    }

    method Earliest(keys: set<Key>) returns (k: Key)
      requires keys != {} && forall x | x in keys :: x in links
      ensures k in keys && forall x | x in keys :: links[k].created <= links[x].created
    {
      k :| k in keys;
      var todo := keys - {k};
      while todo != {}
        invariant k in keys && todo <= keys
        invariant forall x | x in keys && x !in todo :: links[k].created <= links[x].created
        decreases todo
      {
        var x :| x in todo;
        if links[x].created < links[k].created { k := x; }
        todo := todo - {x};
      }
    }
  }
}
