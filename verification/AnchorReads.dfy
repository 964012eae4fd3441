// What a reader of a named place sees after each write.
module AnchorReads {
  import opened Prelude
  import opened Text
  import opened PolygonText
  import opened Anchors

  // A run is one write after the other on empty tables.
  lemma RunSteps(ops: seq<Op>, op: Op)
    ensures Run([]) == Tables(map[], map[]) && Run(ops + [op]) == After(Run(ops), op)
  {
    assert (ops + [op])[..|ops|] == ops;
  }

  // A created place reads back as drafted: names with their white space tidied, the
  // coordinates a point was given, in their order, and for an area every corner at
  // four decimals, in order.
  lemma CreatedReadsBack(ops: seq<Op>, id: Id, d: Draft, now: int)
    requires Fault(Run(ops), Create(id, d, now)).None?
    ensures var a := Hydrated(After(Run(ops), Create(id, d, now)), id);
            && a.Some? && d.kind.Some? && a.value.kind == d.kind.value && a.value.id == id
            && a.value.name == JoinWords(Words(d.name)) && a.value.room == JoinWords(Words(d.room))
            && a.value.level == d.level && a.value.created == now && a.value.updated == now
            && a.value.note <= JoinWords(Words(d.note))
            && a.value.bound == map[]
            && (d.kind == Some(Spot) ==> IsAt(a.value, d.x, d.y, d.z))
            && (d.kind == Some(Area) ==> IsRound(a.value.polygon, d.polygon))
  {
    var t := Run(ops);
    RunKeepsInv(ops);
    NothingBound(t, id);
    BoundToSame(t, After(t, Create(id, d, now)), id);
    DraftedRow(d, now);
    if d.kind == Some(Area) { DrawnReadsBack(d, now); }
    assert After(t, Create(id, d, now)).anchors[id] == RowOf(d, now).value.0;
  }

  lemma DraftedRow(d: Draft, now: int)
    requires RowOf(d, now).Ok?
    ensures var r := RowOf(d, now).value.0;
            && d.kind.Some? && r.kind == d.kind.value
            && r.name == JoinWords(Words(d.name)) && r.room == JoinWords(Words(d.room))
            && r.level == d.level && r.created == now && r.updated == now && r.note <= JoinWords(Words(d.note))
            && (d.kind == Some(Spot) ==>
                  && d.x.Finite? && d.y.Finite? && r.x == Some(d.x.r) && r.y == Some(d.y.r)
                  && (d.z.None? ==> r.z.None?) && (d.z.Some? ==> d.z.value.Finite? && r.z == Some(d.z.value.r)))
  {
  }

  lemma DrawnReadsBack(d: Draft, now: int)
    requires RowOf(d, now).Ok? && d.kind == Some(Area)
    ensures IsRound(Load(RowOf(d, now).value.0.polygon), d.polygon)
  {
    PairsAt(d.polygon);
    LoadDump(RowOf(d, now).value.1);
  }

  // The coordinates of a point, as they were given.
  predicate IsAt(a: Anchor, x: Num, y: Num, z: Option<Num>) {
    && x.Finite? && y.Finite? && a.x == Some(x.r) && a.y == Some(y.r)
    && (z.None? ==> a.z.None?) && (z.Some? ==> z.value.Finite? && a.z == Some(z.value.r))
  }

  predicate IsRound(poly: seq<Point>, given: seq<seq<Num>>) {
    |poly| == |given| && forall i | 0 <= i < |given| ::
      IsPair(given[i]) && poly[i] == (Rounded(given[i][0].r), Rounded(given[i][1].r))
  }

  lemma {:induction false} PairsAt(ps: seq<seq<Num>>)
    requires forall i | 0 <= i < |ps| :: IsPair(ps[i])
    ensures forall i | 0 <= i < |ps| :: Pairs(ps)[i] == (ps[i][0].r, ps[i][1].r)
  {
    if |ps| > 0 {
      PairsAt(ps[1..]);
      forall i | 0 <= i < |ps| ensures Pairs(ps)[i] == (ps[i][0].r, ps[i][1].r) {
        if i > 0 { assert Pairs(ps)[i] == Pairs(ps[1..])[i - 1] && ps[1..][i - 1] == ps[i]; }
      }
    }
  }

  // Nothing is bound to an id no anchor has.
  lemma NothingBound(t: Tables, id: Id)
    requires id !in t.anchors && forall k | k in t.links :: LinkOk(t, k)
    ensures BoundTo(t, id) == map[]
  {
    forall k | k in t.links ensures k.anchor != id { assert LinkOk(t, k); }
  }

  // A rename changes the name and the time of the last change, nothing else.
  lemma RenamedReadsBack(t: Tables, id: Id, name: string, now: int)
    requires Fault(t, Rename(id, name, now)).None?
    ensures Hydrated(After(t, Rename(id, name, now)), id) ==
              Some(Hydrated(t, id).value.(name := JoinWords(Words(name)), updated := now))
  {
    BoundToSame(t, After(t, Rename(id, name, now)), id);
  }

  // A move changes the room, and the level when one is given, and clears the geometry.
  lemma MovedReadsBack(t: Tables, id: Id, room: string, level: Option<int>, now: int)
    requires Fault(t, Move(id, room, level, now)).None?
    ensures var was := Hydrated(t, id).value;
            Hydrated(After(t, Move(id, room, level, now)), id) ==
              Some(was.(room := JoinWords(Words(room)), level := if level == None then was.level else level.value,
                        kind := Logical, x := None, y := None, z := None, polygon := [], updated := now))
  {
    BoundToSame(t, After(t, Move(id, room, level, now)), id);
    LoadDump([]);
  }

  // A placement makes it a point where it was put and changes no name, room or level.
  lemma PlacedReadsBack(t: Tables, id: Id, x: Num, y: Num, z: Option<Num>, room: seq<Point>, now: int)
    requires Fault(t, Place(id, x, y, z, room, now)).None?
    ensures var was := Hydrated(t, id).value;
            var a := Hydrated(After(t, Place(id, x, y, z, room, now)), id);
            && a.Some? && IsAt(a.value, x, y, z)
            && a.value == was.(kind := Spot, x := a.value.x, y := a.value.y, z := a.value.z, polygon := [],
                               updated := now)
  {
    BoundToSame(t, After(t, Place(id, x, y, z, room, now)), id);
    LoadDump([]);
  }

  // A binding adds its tidied external id, unless it is there already, and keeps the
  // origin of the first.
  lemma BoundReadsBack(t: Tables, id: Id, provider: string, external: string, origin: Option<Origin>, now: int)
    requires Fault(t, Bind(id, provider, external, origin, now)).None?
    ensures var was := Hydrated(t, id).value;
            var key := (JoinWords(Words(provider)), JoinWords(Words(external)));
            && origin.Some?
            && Hydrated(After(t, Bind(id, provider, external, origin, now)), id) ==
                 Some(if key in was.bound then was else was.(bound := was.bound[key := origin.value]))
  {
    var u := After(t, Bind(id, provider, external, origin, now));
    var k := BoundKey(id, provider, external);
    BoundAtKey(t, id);
    BoundAtKey(u, id);
    if k !in t.links { BoundToAdds(t, u, k, origin.value); }
  }

  lemma BoundToAdds(t: Tables, u: Tables, k: Key, origin: Origin)
    requires forall j :: j in u.links <==> j in t.links || j == k
    requires (forall j | j in t.links :: u.links[j].origin == t.links[j].origin)
    requires k !in t.links && u.links[k].origin == origin
    ensures BoundTo(u, k.anchor) == BoundTo(t, k.anchor)[(k.provider, k.external) := origin]
  {
    BoundAtKey(t, k.anchor);
    BoundAtKey(u, k.anchor);
  }

  lemma BoundAtKey(t: Tables, id: Id)
    ensures forall p, e ::
              && ((p, e) in BoundTo(t, id) <==> Key(id, p, e) in t.links)
              && ((p, e) in BoundTo(t, id) ==> BoundTo(t, id)[(p, e)] == t.links[Key(id, p, e)].origin)
  {
  }

  // An unbinding takes out that external id and no other.
  lemma UnboundReadsBack(t: Tables, id: Id, provider: string, external: string)
    requires id in t.anchors
    ensures var was := Hydrated(t, id).value;
            Hydrated(After(t, Unbind(id, provider, external)), id) ==
              Some(was.(bound := was.bound - {(provider, external)}))
  {
    BoundToRemoves(t, After(t, Unbind(id, provider, external)), Key(id, provider, external));
  }

  lemma BoundToRemoves(t: Tables, u: Tables, k: Key)
    requires u.links == t.links - {k}
    ensures BoundTo(u, k.anchor) == BoundTo(t, k.anchor) - {(k.provider, k.external)}
  {
    BoundAtKey(t, k.anchor);
    BoundAtKey(u, k.anchor);
  }

  // A deleted place is gone.
  lemma DeletedIsGone(t: Tables, id: Id)
    ensures Hydrated(After(t, Delete(id)), id) == None
  {
  }

  // What a write is refused for: exactly a name, room or external id that is empty or too
  // long once tidied, no such kind, place or origin, a taken id, or bad geometry.
  predicate Nameable(text: string, limit: nat) {
    JoinWords(Words(text)) != "" && |JoinWords(Words(text))| <= limit
  }

  predicate Placeable(x: Num, y: Num, z: Option<Num>, room: seq<Point>) {
    x.Finite? && y.Finite? && (z.Some? ==> z.value.Finite?) && InRoom(room, (x.r, y.r))
  }

  predicate Drawable(polygon: seq<seq<Num>>, room: seq<Point>) {
    3 <= |polygon| <= 64 && forall i | 0 <= i < |polygon| ::
      |polygon[i]| == 2 && polygon[i][0].Finite? && polygon[i][1].Finite?
      && InRoom(room, (polygon[i][0].r, polygon[i][1].r))
  }

  lemma AcceptedExactly(t: Tables, op: Op)
    ensures Fault(t, op).None? <==>
              match op
              case Create(id, d, _) =>
                && Nameable(d.name, 80) && Nameable(d.room, 80) && d.kind.Some? && id !in t.anchors
                && (d.kind == Some(Spot) ==> Placeable(d.x, d.y, d.z, d.roomPolygon))
                && (d.kind == Some(Area) ==> Drawable(d.polygon, d.roomPolygon))
              case Rename(id, name, _) => Nameable(name, 80) && id in t.anchors
              case Move(id, room, _, _) => Nameable(room, 80) && id in t.anchors
              case Place(id, x, y, z, room, _) => Placeable(x, y, z, room) && id in t.anchors
              case Bind(id, p, e, origin, _) => Nameable(p, 80) && Nameable(e, 200) && origin.Some? && id in t.anchors
              case Delete(_) => true
              case Unbind(_, _, _) => true
  {
    if op.Create? { AreaExactly(op.draft.polygon, op.draft.roomPolygon); }
  }

  lemma AreaExactly(polygon: seq<seq<Num>>, room: seq<Point>)
    ensures AreaGeometry(polygon, room).Ok? <==> Drawable(polygon, room)
  {
    if forall i | 0 <= i < |polygon| :: IsPair(polygon[i]) {
      PairsAt(polygon);
    }
    if Drawable(polygon, room) {
      forall i | 0 <= i < |polygon| ensures IsPair(polygon[i]) && InRoom(room, Pairs(polygon)[i]) {}
    }
    if AreaGeometry(polygon, room).Ok? {
      forall i | 0 <= i < |polygon| ensures IsPair(polygon[i]) && InRoom(room, (polygon[i][0].r, polygon[i][1].r)) {
        assert InRoom(room, Pairs(polygon)[i]);
      }
    }
  }

  // A text that was refused: empty once tidied, or too long.
  ghost predicate NamedBadly(e: Option<AnchorError>, text: string, what: Field, limit: nat) {
    var tidy := JoinWords(Words(text));
    e == (if tidy == "" then Some(Required(what)) else Some(TooLong(what))) && (tidy == "" || |tidy| > limit)
  }

  // A point is refused for a coordinate that is no finite number before the room is
  // looked at.
  ghost predicate PlacedBadly(e: Option<AnchorError>, x: Num, y: Num, z: Option<Num>, room: seq<Point>) {
    || (e == Some(NotFiniteXY) && !(x.Finite? && y.Finite?))
    || (e == Some(NotFiniteZ) && x.Finite? && y.Finite? && z == Some(NotFinite))
    || (e == Some(OutsideRoom) && x.Finite? && y.Finite? && z != Some(NotFinite) && !InRoom(room, (x.r, y.r)))
  }

  ghost predicate DrawnBadly(e: Option<AnchorError>, polygon: seq<seq<Num>>, room: seq<Point>) {
    var pairs := forall i | 0 <= i < |polygon| :: IsPair(polygon[i]);
    || (e == Some(TooFewPoints) && |polygon| < 3)
    || (e == Some(TooManyPoints) && |polygon| > 64)
    || (e == Some(MalformedPoint) && 3 <= |polygon| <= 64 && !pairs)
    || (e == Some(OutsideRoom) && 3 <= |polygon| <= 64 && pairs)
  }

  // What a refused write is refused for: the first thing wrong, in the order of the
  // checks.
  lemma RefusedFor(t: Tables, op: Op)
    requires Fault(t, op).Some?
    ensures var e := Fault(t, op);
            match op
            case Create(id, d, _) =>
              if !Nameable(d.name, 80) then NamedBadly(e, d.name, AnchorName, 80)
              else if !Nameable(d.room, 80) then NamedBadly(e, d.room, RoomName, 80)
              else if d.kind == None then e == Some(UnknownKind)
              else if d.kind == Some(Spot) && !Placeable(d.x, d.y, d.z, d.roomPolygon) then
                PlacedBadly(e, d.x, d.y, d.z, d.roomPolygon)
              else if d.kind == Some(Area) && !Drawable(d.polygon, d.roomPolygon) then
                DrawnBadly(e, d.polygon, d.roomPolygon)
              else e == Some(IdTaken)
            case Rename(id, name, _) =>
              if !Nameable(name, 80) then NamedBadly(e, name, AnchorName, 80) else e == Some(NoSuchAnchor)
            case Move(id, room, _, _) =>
              if !Nameable(room, 80) then NamedBadly(e, room, RoomName, 80) else e == Some(NoSuchAnchor)
            case Place(id, x, y, z, room, _) =>
              if id !in t.anchors then e == Some(NoSuchAnchor) else PlacedBadly(e, x, y, z, room)
            case Bind(id, p, x, _, _) =>
              if id !in t.anchors then e == Some(NoSuchAnchor)
              else if !Nameable(p, 80) then NamedBadly(e, p, ProviderId, 80)
              else if !Nameable(x, 200) then NamedBadly(e, x, ExternalId, 200)
              else e == Some(UnknownOrigin)
            case _ => false
  {
    if op.Create? { AreaExactly(op.draft.polygon, op.draft.roomPolygon); }
  }
}
