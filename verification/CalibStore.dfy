// The per-camera calibration rows (backend/wavr/calib_store.py). Each write is an
// upsert of some of a row's columns that leaves the others alone.
module CalibStore {
  import opened Prelude
  import opened CalibMerge

  const MAX_JSON_BYTES := 4096
  const MAX_DIM := 100_000
  const MAX_POINTS := 200
  const MAX_POINTS_JSON_BYTES := 16384

  datatype Mount = Mount(posX: real, posY: real, height: real, tilt: real, yaw: real, hfov: real, vfov: Option<real>)

  // What float() makes of a JSON value where a number is expected.
  datatype Entry = Finite(v: real) | NotFinite | NotANumber

  datatype HomographyInput = NotAList | Entries(entries: seq<Entry>)

  datatype CalibError =
    | MountTooLarge
    | NotNineNumbers
    | EntryNotNumber
    | EntryNotFinite
    | ZeroScale
    | SizeOutOfRange
    | QualityNotNumber
    | QualityOutOfRange
    | HomographyTooLarge
    | NotArrays
    | LengthMismatch
    | NotFinitePairs
    | TooManyPoints
    | PointsTooLarge

  // How many characters json.dumps writes for each kind of blob.
  datatype Sizes = Sizes(mount: Mount -> nat, homography: seq<real> -> nat, points: (seq<Point>, seq<Point>) -> nat)

  datatype Row = Row(
    mount: Option<Mount>,
    homography: Option<seq<real>>,
    size: Option<Size>,
    quality: Option<real>,
    points: Option<(seq<Point>, seq<Point>)>)

  type Table = map<string, Row>

  const EMPTY_ROW := Row(None, None, None, None, None)

  function RowOf(t: Table, name: string): Row {
    if name in t then t[name] else EMPTY_ROW
  }

  // -- validate_homography ---------------------------------------------------

  ghost predicate IsHomography(h: HomographyInput) {
    && h.Entries? && |h.entries| == 9
    && (forall i | 0 <= i < 9 :: h.entries[i].Finite?)
    && h.entries[8].v != 0.0
  }

  function FirstBad(entries: seq<Entry>): (e: Option<CalibError>) {
    if |entries| == 0 then None
    else
      match entries[0]
      case NotANumber => Some(EntryNotNumber)
      case NotFinite => Some(EntryNotFinite)
      case Finite(_) => FirstBad(entries[1..])
  }

  function EntriesFault(h: HomographyInput): (e: Option<CalibError>) {
    if h.NotAList? || |h.entries| != 9 then Some(NotNineNumbers)
    else if FirstBad(h.entries).Some? then FirstBad(h.entries)
    else if h.entries[8] == Finite(0.0) then Some(ZeroScale)
    else None
  }

  lemma {:induction false} FirstBadAt(entries: seq<Entry>, i: nat)
    requires i < |entries| && forall j | 0 <= j < i :: entries[j].Finite?
    ensures entries[i] == NotANumber ==> FirstBad(entries) == Some(EntryNotNumber)
    ensures entries[i] == NotFinite ==> FirstBad(entries) == Some(EntryNotFinite)
    ensures i == |entries| - 1 && entries[i].Finite? ==> FirstBad(entries) == None
  {
    if i > 0 { FirstBadAt(entries[1..], i - 1); }
  }

  // Accepts exactly nine finite numbers with a non-zero last one, and returns
  // them in order; otherwise names the first entry at fault.
  method ValidateHomography(h: HomographyInput) returns (res: Result<seq<real>, CalibError>)
    ensures res.Ok? <==> IsHomography(h)
    ensures res.Ok? ==> |res.value| == 9 && forall i | 0 <= i < 9 :: h.entries[i] == Finite(res.value[i])
    ensures res == Err(NotNineNumbers) <==> h.NotAList? || |h.entries| != 9
    ensures res.Err? && res.error in {EntryNotNumber, EntryNotFinite} ==>
              exists i | 0 <= i < 9 ::
                && (forall j | 0 <= j < i :: h.entries[j].Finite?)
                && h.entries[i] == if res.error == EntryNotNumber then NotANumber else NotFinite
    ensures res.Err? ==> res.error in {NotNineNumbers, EntryNotNumber, EntryNotFinite, ZeroScale}
    ensures res == Err(ZeroScale) ==> forall i | 0 <= i < 9 :: h.entries[i].Finite?
    ensures EntriesFault(h) == if res.Err? then Some(res.error) else None
  {
    if h.NotAList? || |h.entries| != 9 { return Err(NotNineNumbers); }
    var out: seq<real> := [];
    for i := 0 to 9
      invariant |out| == i
      invariant forall j | 0 <= j < i :: h.entries[j] == Finite(out[j])
    {
      FirstBadAt(h.entries, i);
      match h.entries[i] {
        case NotANumber => return Err(EntryNotNumber);
        case NotFinite => return Err(EntryNotFinite);
        case Finite(v) => out := out + [v];
      }
    }
    FirstBadAt(h.entries, 8);
    if out[8] == 0.0 { return Err(ZeroScale); }
    res := Ok(out);
  }

  predicate SizeInRange(size: Size) {
    0 < size.0 <= MAX_DIM && 0 < size.1 <= MAX_DIM
  }

  // -- The writes, as functions of the table -----------------------------------

  function MountSet(sizes: Sizes, t: Table, name: string, m: Mount): (r: Result<Table, CalibError>) {
    if sizes.mount(m) > MAX_JSON_BYTES then Err(MountTooLarge)
    else Ok(t[name := RowOf(t, name).(mount := Some(m))])
  }

  // The limits on a homography that is nine numbers.
  function HomographyFault(sizes: Sizes, h: seq<real>, size: Size, quality: Option<real>): (e: Option<CalibError>) {
    if |h| != 9 then Some(NotNineNumbers)
    else if h[8] == 0.0 then Some(ZeroScale)
    else if !SizeInRange(size) then Some(SizeOutOfRange)
    else if quality.Some? && !(0.0 <= quality.value <= 1.0) then Some(QualityOutOfRange)
    else if sizes.homography(h) > MAX_JSON_BYTES then Some(HomographyTooLarge)
    else None
  }

  // set_homography on whatever it is handed.
  function HomographyInputFault(sizes: Sizes, h: HomographyInput, size: Size, quality: Option<Entry>)
    : (e: Option<CalibError>)
  {
    if EntriesFault(h).Some? then EntriesFault(h)
    else if !SizeInRange(size) then Some(SizeOutOfRange)
    else if quality == Some(NotANumber) then Some(QualityNotNumber)
    else if quality == Some(NotFinite) then Some(QualityOutOfRange)
    else HomographyFault(sizes, Numbers(h.entries), size, QualityOf(quality))
  }

  function QualityOf(quality: Option<Entry>): (q: Option<real>) {
    if quality.Some? && quality.value.Finite? then Some(quality.value.v) else None
  }

  function Numbers(entries: seq<Entry>): (r: seq<real>)
    ensures |r| == |entries|
  {
    if |entries| == 0 then [] else [if entries[0].Finite? then entries[0].v else 0.0] + Numbers(entries[1..])
  }

  function AsEntries(h: seq<real>): (r: seq<Entry>)
    ensures |r| == |h|
  {
    if |h| == 0 then [] else [Finite(h[0])] + AsEntries(h[1..])
  }

  lemma {:induction false} NumbersAt(entries: seq<Entry>, i: nat)
    requires i < |entries| && entries[i].Finite?
    ensures Numbers(entries)[i] == entries[i].v
  {
    if i > 0 { NumbersAt(entries[1..], i - 1); }
  }

  lemma {:induction false} AsEntriesRead(h: seq<real>)
    ensures Numbers(AsEntries(h)) == h && FirstBad(AsEntries(h)) == None
    ensures forall i | 0 <= i < |h| :: AsEntries(h)[i] == Finite(h[i])
  {
    if |h| > 0 {
      AsEntriesRead(h[1..]);
      assert [h[0]] + h[1..] == h;
      assert AsEntries(h)[1..] == AsEntries(h[1..]);
    }
  }

  // On nine numbers and a number for the quality, only the limits can refuse.
  lemma NumbersFault(sizes: Sizes, h: seq<real>, size: Size, quality: Option<real>)
    ensures HomographyInputFault(sizes, Entries(AsEntries(h)), size,
                                 if quality.Some? then Some(Finite(quality.value)) else None)
            == HomographyFault(sizes, h, size, quality)
  {
    AsEntriesRead(h);
  }

  function HomographySet(sizes: Sizes, t: Table, name: string, h: seq<real>, size: Size, quality: Option<real>)
    : (r: Result<Table, CalibError>)
  {
    match HomographyFault(sizes, h, size, quality)
    case Some(e) => Err(e)
    case None => Ok(t[name := RowOf(t, name).(homography := Some(h), size := Some(size), quality := quality)])
  }

  // -- validate_points -----------------------------------------------------------

  // What is handed in where an [x, y] pair is expected, and where a list of them is.
  datatype RawPair = NotSized | Coords(coords: seq<Entry>)
  datatype RawPoints = NotAnArray | Items(items: seq<RawPair>)

  predicate FinitePair(p: RawPair) {
    p.Coords? && |p.coords| == 2 && p.coords[0].Finite? && p.coords[1].Finite?
  }

  function PairOf(p: RawPair): (q: Point) {
    if FinitePair(p) then (p.coords[0].v, p.coords[1].v) else (0.0, 0.0)
  }

  function PairsOf(items: seq<RawPair>): (ps: seq<Point>)
    ensures |ps| == |items|
  {
    if |items| == 0 then [] else [PairOf(items[0])] + PairsOf(items[1..])
  }

  function AsPairs(ps: seq<Point>): (items: seq<RawPair>)
    ensures |items| == |ps|
  {
    if |ps| == 0 then [] else [Coords([Finite(ps[0].0), Finite(ps[0].1)])] + AsPairs(ps[1..])
  }

  predicate AllFinitePairs(items: seq<RawPair>) { forall i | 0 <= i < |items| :: FinitePair(items[i]) }

  // set_points on whatever it is handed.
  function PointsInputFault(sizes: Sizes, image: RawPoints, floor: RawPoints, size: Size): (e: Option<CalibError>) {
    if image.NotAnArray? || floor.NotAnArray? then Some(NotArrays)
    else if |image.items| != |floor.items| then Some(LengthMismatch)
    else if |image.items| > MAX_POINTS then Some(TooManyPoints)
    else if !AllFinitePairs(image.items) || !AllFinitePairs(floor.items) then Some(NotFinitePairs)
    else PointsFault(sizes, PairsOf(image.items), PairsOf(floor.items), size)
  }

  lemma {:induction false} AsPairsRead(ps: seq<Point>)
    ensures PairsOf(AsPairs(ps)) == ps && AllFinitePairs(AsPairs(ps))
  {
    if |ps| > 0 {
      AsPairsRead(ps[1..]);
      var items := AsPairs(ps);
      assert items[1..] == AsPairs(ps[1..]);
      forall i | 0 <= i < |items| ensures FinitePair(items[i]) {
        if i > 0 { assert items[i] == items[1..][i - 1]; }
      }
      assert [ps[0]] + ps[1..] == ps;
    }
  }

  // On pairs of numbers, only the limits can refuse.
  lemma PairsFault(sizes: Sizes, image: seq<Point>, floor: seq<Point>, size: Size)
    ensures PointsInputFault(sizes, Items(AsPairs(image)), Items(AsPairs(floor)), size)
            == PointsFault(sizes, image, floor, size)
  {
    AsPairsRead(image);
    AsPairsRead(floor);
  }

  lemma {:induction false} PairsOfAt(items: seq<RawPair>, i: nat)
    requires i < |items|
    ensures PairsOf(items)[i] == PairOf(items[i])
  {
    if i > 0 { PairsOfAt(items[1..], i - 1); }
  }

  // What is stored is exactly what was handed in: equal-length arrays of at most 200
  // [x, y] pairs of finite numbers, in their order, at a size and in a blob in range.
  lemma PointsStoredExactly(sizes: Sizes, image: RawPoints, floor: RawPoints, size: Size)
    ensures PointsInputFault(sizes, image, floor, size).None? <==>
              && image.Items? && floor.Items? && |image.items| == |floor.items| <= 200
              && AllFinitePairs(image.items) && AllFinitePairs(floor.items)
              && 1 <= size.0 <= 100000 && 1 <= size.1 <= 100000
              && sizes.points(PairsOf(image.items), PairsOf(floor.items)) <= 16384
    ensures PointsInputFault(sizes, image, floor, size).None? ==>
              forall i | 0 <= i < |image.items| ::
                && image.items[i].coords == [Finite(PairsOf(image.items)[i].0), Finite(PairsOf(image.items)[i].1)]
                && floor.items[i].coords == [Finite(PairsOf(floor.items)[i].0), Finite(PairsOf(floor.items)[i].1)]
  {
    if PointsInputFault(sizes, image, floor, size).None? {
      forall i | 0 <= i < |image.items|
        ensures image.items[i].coords == [Finite(PairsOf(image.items)[i].0), Finite(PairsOf(image.items)[i].1)]
        ensures floor.items[i].coords == [Finite(PairsOf(floor.items)[i].0), Finite(PairsOf(floor.items)[i].1)]
      {
        PairsOfAt(image.items, i);
        PairsOfAt(floor.items, i);
      }
    }
  }

  // The limits on lists of points that are pairs of numbers.
  function PointsFault(sizes: Sizes, image: seq<Point>, floor: seq<Point>, size: Size): (e: Option<CalibError>) {
    if |image| != |floor| then Some(LengthMismatch)
    else if |image| > MAX_POINTS then Some(TooManyPoints)
    else if !SizeInRange(size) then Some(SizeOutOfRange)
    else if sizes.points(image, floor) > MAX_POINTS_JSON_BYTES then Some(PointsTooLarge)
    else None
  }

  function PointsSet(sizes: Sizes, t: Table, name: string, image: seq<Point>, floor: seq<Point>, size: Size)
    : (r: Result<Table, CalibError>)
  {
    match PointsFault(sizes, image, floor, size)
    case Some(e) => Err(e)
    case None => Ok(t[name := RowOf(t, name).(points := Some((image, floor)), size := Some(size))])
  }

  function TableAfter(t: Table, r: Result<Table, CalibError>): Table {
    match r
    case Ok(t') => t'
    case Err(_) => t
  }

  // -- What the writes leave ---------------------------------------------------------

  // A write of a row's columns leaves the others, and every other row, as they were; a
  // refused one leaves everything.
  lemma WritesKeep(sizes: Sizes, t: Table, name: string, other: string, m: Mount, h: seq<real>,
                   image: seq<Point>, floor: seq<Point>, size: Size, quality: Option<real>)
    requires other != name
    ensures var u := TableAfter(t, MountSet(sizes, t, name, m));
            && RowOf(u, other) == RowOf(t, other)
            && RowOf(u, name) == if sizes.mount(m) <= 4096 then RowOf(t, name).(mount := Some(m)) else RowOf(t, name)
    ensures var u := TableAfter(t, HomographySet(sizes, t, name, h, size, quality));
            && RowOf(u, other) == RowOf(t, other)
            && RowOf(u, name).mount == RowOf(t, name).mount && RowOf(u, name).points == RowOf(t, name).points
            && (HomographyFault(sizes, h, size, quality).Some? ==> u == t)
            && (HomographyFault(sizes, h, size, quality).None? ==>
                  RowOf(u, name).homography == Some(h) && RowOf(u, name).size == Some(size)
                  && RowOf(u, name).quality == quality)
    ensures var u := TableAfter(t, PointsSet(sizes, t, name, image, floor, size));
            && RowOf(u, other) == RowOf(t, other)
            && RowOf(u, name).mount == RowOf(t, name).mount
            && RowOf(u, name).homography == RowOf(t, name).homography
            && RowOf(u, name).quality == RowOf(t, name).quality
            && (PointsFault(sizes, image, floor, size).Some? ==> u == t)
            && (PointsFault(sizes, image, floor, size).None? ==>
                  RowOf(u, name).points == Some((image, floor)) && RowOf(u, name).size == Some(size))
  {
  }

  // A homography is stored exactly when it is nine finite numbers of which the last is not
  // zero, at a size in range, with a quality from 0 to 1 if any, in a blob within the cap;
  // and a fault of the quality is told only when all before it is in order.
  lemma HomographyStoredExactly(sizes: Sizes, h: HomographyInput, size: Size, quality: Option<Entry>)
    ensures var e := HomographyInputFault(sizes, h, size, quality);
            var before := IsHomography(h) && 1 <= size.0 <= 100000 && 1 <= size.1 <= 100000;
            && (e.None? <==>
                  && before && (quality == None || (quality.value.Finite? && 0.0 <= quality.value.v <= 1.0))
                  && sizes.homography(Numbers(h.entries)) <= 4096)
            && (e == Some(QualityNotNumber) <==> before && quality == Some(NotANumber))
            && (e == Some(QualityOutOfRange) <==>
                  before && quality.Some? && !quality.value.NotANumber?
                  && (quality.value.NotFinite? || quality.value.v < 0.0 || quality.value.v > 1.0))
  {
    if h.Entries? && |h.entries| == 9 { NineEntries(h.entries); }
  }

  // The first fault is the one named: of a homography ...
  lemma HomographyRefusedFor(sizes: Sizes, h: HomographyInput, size: Size, quality: Option<Entry>)
    ensures var e := HomographyInputFault(sizes, h, size, quality);
            var nine := h.Entries? && |h.entries| == 9;
            var sized := 1 <= size.0 <= 100000 && 1 <= size.1 <= 100000;
            && (e == Some(NotNineNumbers) <==> !nine)
            && (e == Some(EntryNotNumber) <==> nine && FirstIs(h.entries, NotANumber))
            && (e == Some(EntryNotFinite) <==> nine && FirstIs(h.entries, NotFinite))
            && (e == Some(ZeroScale) <==>
                  nine && (forall i | 0 <= i < 9 :: h.entries[i].Finite?) && h.entries[8].v == 0.0)
            && (e == Some(SizeOutOfRange) <==> IsHomography(h) && !sized)
            && (e == Some(HomographyTooLarge) ==>
                  IsHomography(h) && sized && sizes.homography(Numbers(h.entries)) > 4096)
  {
    if h.Entries? && |h.entries| == 9 {
      NineEntries(h.entries);
      FirstIsExactly(h.entries);
    }
  }

  // The first entry that is no finite number is of that sort.
  ghost predicate FirstIs(entries: seq<Entry>, sort: Entry) {
    exists i | 0 <= i < |entries| :: entries[i] == sort && forall j | 0 <= j < i :: entries[j].Finite?
  }

  lemma FirstIsExactly(entries: seq<Entry>)
    ensures FirstBad(entries) == Some(EntryNotNumber) <==> FirstIs(entries, NotANumber)
    ensures FirstBad(entries) == Some(EntryNotFinite) <==> FirstIs(entries, NotFinite)
  {
    FirstBadExactly(entries);
    if i :| 0 <= i < |entries| && !entries[i].Finite? && forall j | 0 <= j < i :: entries[j].Finite? {
      FirstBadAt(entries, i);
    }
    if FirstBad(entries).Some? {
      var i := FirstOdd(entries);
      FirstBadAt(entries, i);
    }
  }

  lemma {:induction false} FirstOdd(entries: seq<Entry>) returns (i: nat)
    requires FirstBad(entries).Some?
    ensures i < |entries| && !entries[i].Finite? && forall j | 0 <= j < i :: entries[j].Finite?
  {
    if entries[0].Finite? {
      var k := FirstOdd(entries[1..]);
      i := k + 1;
      forall j | 0 <= j < i ensures entries[j].Finite? { if j > 0 { assert entries[1..][j - 1].Finite?; } }
    } else {
      i := 0;
    }
  }

  // ... and of points.
  lemma PointsRefusedFor(sizes: Sizes, image: RawPoints, floor: RawPoints, size: Size)
    ensures var e := PointsInputFault(sizes, image, floor, size);
            var lists := image.Items? && floor.Items?;
            var paired := lists && |image.items| == |floor.items|;
            var few := paired && |image.items| <= 200;
            var finite := few && AllFinitePairs(image.items) && AllFinitePairs(floor.items);
            var sized := finite && 1 <= size.0 <= 100000 && 1 <= size.1 <= 100000;
            && (e == Some(NotArrays) <==> !lists)
            && (e == Some(LengthMismatch) <==> lists && !paired)
            && (e == Some(TooManyPoints) <==> paired && !few)
            && (e == Some(NotFinitePairs) <==> few && !finite)
            && (e == Some(SizeOutOfRange) <==> finite && !sized)
            && (e == Some(PointsTooLarge) <==>
                  sized && sizes.points(PairsOf(image.items), PairsOf(floor.items)) > 16384)
  {
  }

  lemma NineEntries(entries: seq<Entry>)
    requires |entries| == 9
    ensures FirstBad(entries).None? <==> forall i | 0 <= i < 9 :: entries[i].Finite?
    ensures entries[8].Finite? ==> Numbers(entries)[8] == entries[8].v
    ensures FirstBad(entries).Some? ==> FirstBad(entries).value in {EntryNotNumber, EntryNotFinite}
  {
    if entries[8].Finite? { NumbersAt(entries, 8); }
    FirstBadExactly(entries);
  }

  lemma {:induction false} FirstBadExactly(entries: seq<Entry>)
    ensures FirstBad(entries).None? <==> forall i | 0 <= i < |entries| :: entries[i].Finite?
    ensures FirstBad(entries).Some? ==> FirstBad(entries).value in {EntryNotNumber, EntryNotFinite}
  {
    if |entries| > 0 {
      FirstBadExactly(entries[1..]);
      forall i | 0 <= i < |entries[1..]| ensures entries[1..][i] == entries[i + 1] {}
      if entries[0].Finite? && forall i | 0 <= i < |entries[1..]| :: entries[1..][i].Finite? {
        forall i | 0 <= i < |entries| ensures entries[i].Finite? { if i > 0 { assert entries[1..][i - 1].Finite?; } }
      }
    }
  }

  class CalibrationStore {
    const sizes: Sizes
    var rows: Table

    constructor (sizes: Sizes)
      ensures rows == map[] && this.sizes == sizes
    {
      this.sizes := sizes;
      rows := map[];
    }

    // Keeps the homography, size and points of the row.
    method SetMount(name: string, m: Mount) returns (e: Option<CalibError>)
      modifies this
      ensures rows == TableAfter(old(rows), MountSet(sizes, old(rows), name, m))
      ensures e.None? <==> MountSet(sizes, old(rows), name, m).Ok?
    {
      if sizes.mount(m) > MAX_JSON_BYTES { return Some(MountTooLarge); }
      rows := rows[name := RowOf(rows, name).(mount := Some(m))];
      e := None;
    }

    // Keeps the mount and the points; writes nothing when anything is at fault.
    method SetHomography(name: string, h: HomographyInput, size: Size, quality: Option<Entry>)
      returns (e: Option<CalibError>)
      modifies this
      ensures e == HomographyInputFault(sizes, h, size, quality)
      ensures rows == if e.Some? then old(rows)
                      else TableAfter(old(rows), HomographySet(sizes, old(rows), name, Numbers(h.entries), size,
                                                               QualityOf(quality)))
    {
      var clean := ValidateHomography(h);
      if clean.Err? { return Some(clean.error); }
      forall i | 0 <= i < 9 ensures Numbers(h.entries)[i] == clean.value[i] { NumbersAt(h.entries, i); }
      assert clean.value == Numbers(h.entries);
      if !SizeInRange(size) { return Some(SizeOutOfRange); }
      if quality.Some? {
        if quality.value.NotANumber? { return Some(QualityNotNumber); }
        if quality.value.NotFinite? || !(0.0 <= quality.value.v <= 1.0) { return Some(QualityOutOfRange); }
      }
      if sizes.homography(clean.value) > MAX_JSON_BYTES { return Some(HomographyTooLarge); }
      rows := rows[name := RowOf(rows, name).(homography := Some(clean.value), size := Some(size),
                                              quality := QualityOf(quality))];
      e := None;
    }

    // Keeps the mount, the homography and its quality; likewise all or nothing.
    method SetPoints(name: string, image: RawPoints, floor: RawPoints, size: Size) returns (e: Option<CalibError>)
      modifies this
      ensures e == PointsInputFault(sizes, image, floor, size)
      ensures rows == if e.Some? then old(rows)
                      else TableAfter(old(rows), PointsSet(sizes, old(rows), name, PairsOf(image.items),
                                                           PairsOf(floor.items), size))
    {
      e := PointsInputFault(sizes, image, floor, size);
      if e.Some? { return; }
      rows := rows[name := RowOf(rows, name).(points := Some((PairsOf(image.items), PairsOf(floor.items))),
                                              size := Some(size))];
    }

    method Get(name: string) returns (r: Option<Row>)
      ensures r == if name in rows then Some(rows[name]) else None
    {
      r := if name in rows then Some(rows[name]) else None;
    }

    method Delete(name: string) returns (existed: bool)
      modifies this
      ensures existed == (name in old(rows)) && rows == old(rows) - {name}
    {
      existed := name in rows;
      rows := rows - {name};
    }
  }
}
