// Merging a guided walk's correspondences into the stored ones
// (backend/wavr/calib_refine.py, merge_points).
module CalibMerge {
  import opened Prelude

  type Point = (real, real)
  type Size = (int, int)

  // One correspondence: where a spot is in the image, and on the floor.
  datatype Pair = Pair(image: Point, floor: Point)

  // hypot(p - q) <= eps, without the square root.
  predicate Close(p: Point, q: Point, eps: real) {
    var dx, dy := p.0 - q.0, p.1 - q.1;
    eps >= 0.0 && dx * dx + dy * dy <= eps * eps
  }

  // d is the straight-line distance of two points.
  ghost predicate IsDistance(d: real, p: Point, q: Point) {
    d >= 0.0 && d * d == (p.0 - q.0) * (p.0 - q.0) + (p.1 - q.1) * (p.1 - q.1)
  }

  lemma SquaresOrder(a: real, b: real)
    requires a >= 0.0 && b >= 0.0
    ensures a * a <= b * b <==> a <= b
  {
    if a > b { SquareGrows(b, a - b); } else { SquareGrows(a, b - a); }
  }

  lemma SquareGrows(a: real, d: real)
    requires a >= 0.0 && d >= 0.0
    ensures a * a <= (a + d) * (a + d) && (d > 0.0 ==> a * a < (a + d) * (a + d))
  {
    assert (a + d) * (a + d) == a * a + 2.0 * (a * d) + d * d;
    assert a * d >= 0.0 && d * d >= 0.0 && (d > 0.0 ==> d * d > 0.0);
  }

  // Close is being no farther than eps.
  lemma CloseIsDistance(p: Point, q: Point, eps: real, d: real)
    requires IsDistance(d, p, q)
    ensures Close(p, q, eps) <==> d <= eps
  {
    if eps >= 0.0 { SquaresOrder(d, eps); }
  }

  // Farther than eps along one axis.
  predicate FarApart(p: Point, q: Point, eps: real) {
    p.0 - q.0 > eps || q.0 - p.0 > eps || p.1 - q.1 > eps || q.1 - p.1 > eps
  }

  lemma FarIsNotClose(p: Point, q: Point, eps: real)
    requires FarApart(p, q, eps)
    ensures !Close(p, q, eps)
  {
    if Close(p, q, eps) {
      var dx, dy := p.0 - q.0, p.1 - q.1;
      SquaresOrder(if dx < 0.0 then -dx else dx, eps);
      SquaresOrder(if dy < 0.0 then -dy else dy, eps);
    }
  }

  // s[n:] for any n.
  function Drop<T>(s: seq<T>, n: int): (r: seq<T>) {
    if n <= 0 then s else if n >= |s| then [] else s[n..]
  }

  // -- The two paired lists, as the code handles them -----------------------

  predicate NearNew(newFloor: seq<Point>, p: Point, eps: real) {
    exists j | 0 <= j < |newFloor| :: Close(newFloor[j], p, eps)
  }

  // Which existing floor points a walk replaces.
  function Flags(floor: seq<Point>, newFloor: seq<Point>, eps: real): (r: seq<bool>)
    ensures |r| == |floor|
    ensures forall i | 0 <= i < |floor| :: r[i] == NearNew(newFloor, floor[i], eps)
  {
    seq(|floor|, i requires 0 <= i < |floor| => NearNew(newFloor, floor[i], eps))
  }

  // [p for p, r in zip(points, flags) if not r]
  function Unflagged(points: seq<Point>, flags: seq<bool>): (r: seq<Point>) {
    if |points| == 0 || |flags| == 0 then []
    else (if flags[0] then [] else [points[0]]) + Unflagged(points[1..], flags[1..])
  }

  lemma {:induction false} UnflaggedAppend(points: seq<Point>, flags: seq<bool>, k: nat)
    requires k < |points| && k < |flags|
    ensures Unflagged(points[..k + 1], flags[..k + 1])
         == Unflagged(points[..k], flags[..k]) + (if flags[k] then [] else [points[k]])
  {
    if k > 0 {
      UnflaggedAppend(points[1..], flags[1..], k - 1);
      assert points[..k + 1][1..] == points[1..][..k] && points[..k][1..] == points[1..][..k - 1];
      assert flags[..k + 1][1..] == flags[1..][..k] && flags[..k][1..] == flags[1..][..k - 1];
    }
  }

  lemma {:induction false} UnflaggedZip(points: seq<Point>, flags: seq<bool>, k: nat)
    requires k == if |points| <= |flags| then |points| else |flags|
    ensures Unflagged(points, flags) == Unflagged(points[..k], flags[..k])
  {
    if k > 0 {
      UnflaggedZip(points[1..], flags[1..], k - 1);
      assert points[..k][1..] == points[1..][..k - 1] && flags[..k][1..] == flags[1..][..k - 1];
    }
  }

  datatype Stored = Stored(image: seq<Point>, floor: seq<Point>, size: Size)

  predicate SameSize(a: Option<Size>, b: Option<Size>) {
    a.Some? && b.Some? && a.value == b.value
  }

  // Keep the pairs in zip order whose flag is down.
  method Keep(points: seq<Point>, flags: seq<bool>) returns (r: seq<Point>)
    ensures r == Unflagged(points, flags)
  {
    r := [];
    var k := if |points| <= |flags| then |points| else |flags|;
    for i := 0 to k
      invariant r == Unflagged(points[..i], flags[..i])
    {
      UnflaggedAppend(points, flags, i);
      if !flags[i] { r := r + [points[i]]; }
    }
    UnflaggedZip(points, flags, k);
  }

  // What merge_points returns, for whatever lists it is given.
  function MergeLists(image: Option<seq<Point>>, floor: Option<seq<Point>>, size: Option<Size>,
                      newImage: seq<Point>, newFloor: seq<Point>, newSize: Option<Size>,
                      maxPoints: int, eps: real): (r: (seq<Point>, seq<Point>))
  {
    if image.None? || floor.None? || !SameSize(size, newSize) then (newImage, newFloor)
    else
      var flags := Flags(floor.value, newFloor, eps);
      var outImage := Unflagged(image.value, flags) + newImage;
      var outFloor := Unflagged(floor.value, flags) + newFloor;
      (Drop(outImage, |outImage| - maxPoints), Drop(outFloor, |outImage| - maxPoints))
  }

  method MergePoints(image: Option<seq<Point>>, floor: Option<seq<Point>>, size: Option<Size>,
                     newImage: seq<Point>, newFloor: seq<Point>, newSize: Option<Size>,
                     maxPoints: int, eps: real) returns (outImage: seq<Point>, outFloor: seq<Point>)
    ensures (outImage, outFloor) == MergeLists(image, floor, size, newImage, newFloor, newSize, maxPoints, eps)
  {
    if image.None? || floor.None? || size.None? || newSize.None?
       || size.value.0 != newSize.value.0 || size.value.1 != newSize.value.1 {
      return newImage, newFloor;
    }
    var fl := floor.value;
    var replaced := new bool[|fl|](_ => false);
    for j := 0 to |newFloor|
      invariant forall i | 0 <= i < |fl| :: replaced[i] == NearNew(newFloor[..j], fl[i], eps)
    {
      assert newFloor[..j + 1] == newFloor[..j] + [newFloor[j]];
      for i := 0 to |fl|
        invariant forall q | 0 <= q < i :: replaced[q] == NearNew(newFloor[..j + 1], fl[q], eps)
        invariant forall q | i <= q < |fl| :: replaced[q] == NearNew(newFloor[..j], fl[q], eps)
      {
        NearNewAppend(newFloor, j, fl[i], eps);
        if !replaced[i] {
          if Close(newFloor[j], fl[i], eps) { replaced[i] := true; }
        }
      }
    }
    assert newFloor[..|newFloor|] == newFloor;
    assert replaced[..] == Flags(fl, newFloor, eps);
    var keptImage := Keep(image.value, replaced[..]);
    var keptFloor := Keep(fl, replaced[..]);
    outImage := keptImage + newImage;
    outFloor := keptFloor + newFloor;
    var overflow := |outImage| - maxPoints;
    if overflow > 0 {
      outImage := Drop(outImage, overflow);
      outFloor := Drop(outFloor, overflow);
    }
  }

  lemma NearNewAppend(newFloor: seq<Point>, j: nat, p: Point, eps: real)
    requires j < |newFloor|
    ensures NearNew(newFloor[..j + 1], p, eps) <==> NearNew(newFloor[..j], p, eps) || Close(newFloor[j], p, eps)
  {
    var a, b := newFloor[..j + 1], newFloor[..j];
    if NearNew(b, p, eps) {
      var i :| 0 <= i < |b| && Close(b[i], p, eps);
      assert a[i] == b[i];
    }
    if Close(newFloor[j], p, eps) { assert a[j] == newFloor[j]; }
    if NearNew(a, p, eps) {
      var i :| 0 <= i < |a| && Close(a[i], p, eps);
      if i < j { assert b[i] == a[i]; }
    }
  }

  // -- The same merge, on pairs ---------------------------------------------

  function Images(ps: seq<Pair>): (r: seq<Point>)
    ensures |r| == |ps|
  {
    if |ps| == 0 then [] else [ps[0].image] + Images(ps[1..])
  }

  function Floors(ps: seq<Pair>): (r: seq<Point>)
    ensures |r| == |ps|
  {
    if |ps| == 0 then [] else [ps[0].floor] + Floors(ps[1..])
  }

  lemma {:induction false} FloorsAt(ps: seq<Pair>, i: nat)
    requires i < |ps|
    ensures Floors(ps)[i] == ps[i].floor
  {
    if i > 0 { FloorsAt(ps[1..], i - 1); }
  }

  predicate NearWalk(walk: seq<Pair>, p: Pair, eps: real) {
    exists w | w in walk :: Close(w.floor, p.floor, eps)
  }

  // The pairs of ps no point of the walk comes near.
  function Survivors(ps: seq<Pair>, walk: seq<Pair>, eps: real): (r: seq<Pair>)
    ensures |r| <= |ps|
  {
    if |ps| == 0 then []
    else (if NearWalk(walk, ps[0], eps) then [] else [ps[0]]) + Survivors(ps[1..], walk, eps)
  }

  function Merge(ps: seq<Pair>, walk: seq<Pair>, maxPoints: nat, eps: real): (r: seq<Pair>)
    ensures |r| <= maxPoints
  {
    TakeLast(Survivors(ps, walk, eps) + walk, maxPoints)
  }

  lemma NearWalkIsNearNew(walk: seq<Pair>, p: Pair, eps: real)
    ensures NearWalk(walk, p, eps) == NearNew(Floors(walk), p.floor, eps)
  {
    if NearWalk(walk, p, eps) {
      var w :| w in walk && Close(w.floor, p.floor, eps);
      var j :| 0 <= j < |walk| && walk[j] == w;
      FloorsAt(walk, j);
    }
    if NearNew(Floors(walk), p.floor, eps) {
      var j :| 0 <= j < |walk| && Close(Floors(walk)[j], p.floor, eps);
      FloorsAt(walk, j);
      assert walk[j] in walk;
    }
  }

  lemma {:induction false} SurvivorsUnflagged(ps: seq<Pair>, flags: seq<bool>, walk: seq<Pair>, eps: real)
    requires |flags| == |ps|
    requires forall i | 0 <= i < |ps| :: flags[i] == NearWalk(walk, ps[i], eps)
    ensures Unflagged(Images(ps), flags) == Images(Survivors(ps, walk, eps))
    ensures Unflagged(Floors(ps), flags) == Floors(Survivors(ps, walk, eps))
  {
    if |ps| > 0 {
      SurvivorsUnflagged(ps[1..], flags[1..], walk, eps);
      var r := Survivors(ps[1..], walk, eps);
      assert Images(ps)[1..] == Images(ps[1..]) && Floors(ps)[1..] == Floors(ps[1..]);
      if !flags[0] {
        assert ([ps[0]] + r)[1..] == r;
      } else {
        assert [] + r == r;
      }
    }
  }

  lemma {:induction false} ImagesOfConcat(a: seq<Pair>, b: seq<Pair>)
    ensures Images(a + b) == Images(a) + Images(b)
  {
    if |a| == 0 {
      assert a + b == b && Images(a) + Images(b) == Images(b);
    } else {
      ImagesOfConcat(a[1..], b);
      assert (a + b)[0] == a[0] && (a + b)[1..] == a[1..] + b;
      assert [a[0].image] + (Images(a[1..]) + Images(b)) == ([a[0].image] + Images(a[1..])) + Images(b);
    }
  }

  lemma {:induction false} FloorsOfConcat(a: seq<Pair>, b: seq<Pair>)
    ensures Floors(a + b) == Floors(a) + Floors(b)
  {
    if |a| == 0 {
      assert a + b == b && Floors(a) + Floors(b) == Floors(b);
    } else {
      FloorsOfConcat(a[1..], b);
      assert (a + b)[0] == a[0] && (a + b)[1..] == a[1..] + b;
      assert [a[0].floor] + (Floors(a[1..]) + Floors(b)) == ([a[0].floor] + Floors(a[1..])) + Floors(b);
    }
  }

  lemma {:induction false} ListsOfDrop(a: seq<Pair>, n: nat)
    requires n <= |a|
    ensures Images(a[n..]) == Images(a)[n..] && Floors(a[n..]) == Floors(a)[n..]
  {
    if n > 0 {
      ListsOfDrop(a[1..], n - 1);
      assert a[n..] == a[1..][n - 1..];
    }
  }

  // Image and floor points stay paired: on two lists of the same length the code
  // computes exactly the merge of the pairs.
  lemma MergeStaysPaired(ps: seq<Pair>, walk: seq<Pair>, size: Size, maxPoints: nat, eps: real)
    ensures MergeLists(Some(Images(ps)), Some(Floors(ps)), Some(size),
                       Images(walk), Floors(walk), Some(size), maxPoints, eps)
         == (Images(Merge(ps, walk, maxPoints, eps)), Floors(Merge(ps, walk, maxPoints, eps)))
  {
    var flags := Flags(Floors(ps), Floors(walk), eps);
    forall i | 0 <= i < |ps| ensures flags[i] == NearWalk(walk, ps[i], eps) {
      NearWalkIsNearNew(walk, ps[i], eps);
      FloorsAt(ps, i);
    }
    SurvivorsUnflagged(ps, flags, walk, eps);
    var out := Survivors(ps, walk, eps) + walk;
    ImagesOfConcat(Survivors(ps, walk, eps), walk);
    FloorsOfConcat(Survivors(ps, walk, eps), walk);
    if |out| > maxPoints { ListsOfDrop(out, |out| - maxPoints); }
  }

  // "This walk's points are never dropped" holds exactly while the walk itself
  // fits under the cap.
  lemma NewPointsKeptExactly(ps: seq<Pair>, walk: seq<Pair>, maxPoints: nat, eps: real)
    ensures IsSuffix(walk, Merge(ps, walk, maxPoints, eps)) <==> |walk| <= maxPoints
  {
    var m := Merge(ps, walk, maxPoints, eps);
    if |walk| <= maxPoints {
      assert m[|m| - |walk|..] == walk;
    }
  }

  lemma {:induction false} SurvivorsAreFar(ps: seq<Pair>, walk: seq<Pair>, eps: real)
    ensures forall p | p in Survivors(ps, walk, eps) :: p in ps && !NearWalk(walk, p, eps)
  {
    if |ps| > 0 { SurvivorsAreFar(ps[1..], walk, eps); }
  }

  lemma {:induction false} FarAreSurvivors(ps: seq<Pair>, walk: seq<Pair>, p: Pair, eps: real)
    requires p in ps && !NearWalk(walk, p, eps)
    ensures p in Survivors(ps, walk, eps)
  {
    if p != ps[0] { FarAreSurvivors(ps[1..], walk, p, eps); }
  }

  // What a merge does to one stored pair: while all fits under the cap it stays when
  // every walked point is farther away than eps along some axis, and it goes when some
  // walked point is no farther than eps, unless it was walked again as it is.
  lemma MergedByDistance(ps: seq<Pair>, walk: seq<Pair>, p: Pair, maxPoints: nat, eps: real)
    requires p in ps && |ps| + |walk| <= maxPoints
    ensures (forall w | w in walk :: FarApart(w.floor, p.floor, eps)) ==> p in Merge(ps, walk, maxPoints, eps)
    ensures (exists w, d | w in walk :: IsDistance(d, w.floor, p.floor) && d <= eps) && p !in walk ==>
              p !in Merge(ps, walk, maxPoints, eps)
  {
    if forall w | w in walk :: FarApart(w.floor, p.floor, eps) {
      forall w | w in walk ensures !Close(w.floor, p.floor, eps) { FarIsNotClose(w.floor, p.floor, eps); }
      FarAreSurvivors(ps, walk, p, eps);
    }
    if w, d :| w in walk && IsDistance(d, w.floor, p.floor) && d <= eps {
      CloseIsDistance(w.floor, p.floor, eps, d);
      SurvivorsAreFar(ps, walk, eps);
    }
  }

  // The same of the lists as they are handed over: a stored floor point is flagged for
  // replacement only by a walked one not farther than eps along either axis, and always
  // by one no farther than eps.
  lemma FlagsByDistance(floor: seq<Point>, newFloor: seq<Point>, eps: real, i: nat)
    requires i < |floor|
    ensures (forall j | 0 <= j < |newFloor| :: FarApart(newFloor[j], floor[i], eps)) ==>
              !Flags(floor, newFloor, eps)[i]
    ensures (exists j, d | 0 <= j < |newFloor| :: IsDistance(d, newFloor[j], floor[i]) && d <= eps) ==>
              Flags(floor, newFloor, eps)[i]
  {
    forall j | 0 <= j < |newFloor| && FarApart(newFloor[j], floor[i], eps)
      ensures !Close(newFloor[j], floor[i], eps)
    {
      FarIsNotClose(newFloor[j], floor[i], eps);
    }
    if j, d :| 0 <= j < |newFloor| && IsDistance(d, newFloor[j], floor[i]) && d <= eps {
      CloseIsDistance(newFloor[j], floor[i], eps, d);
    }
  }

  lemma {:induction false} FarSurvive(ps: seq<Pair>, walk: seq<Pair>, eps: real)
    requires forall p | p in ps :: !NearWalk(walk, p, eps)
    ensures Survivors(ps, walk, eps) == ps
  {
    if |ps| > 0 {
      assert ps[0] in ps;
      FarSurvive(ps[1..], walk, eps);
      assert [ps[0]] + ps[1..] == ps;
    }
  }

  lemma {:induction false} NearVanish(ps: seq<Pair>, walk: seq<Pair>, eps: real)
    requires eps >= 0.0 && forall p | p in ps :: p in walk
    ensures Survivors(ps, walk, eps) == []
  {
    if |ps| > 0 {
      assert ps[0] in ps;
      assert NearWalk(walk, ps[0], eps);
      NearVanish(ps[1..], walk, eps);
    }
  }

  lemma {:induction false} SurvivorsConcat(a: seq<Pair>, b: seq<Pair>, walk: seq<Pair>, eps: real)
    ensures Survivors(a + b, walk, eps) == Survivors(a, walk, eps) + Survivors(b, walk, eps)
  {
    if |a| == 0 {
      assert a + b == b;
    } else {
      SurvivorsConcat(a[1..], b, walk, eps);
      assert (a + b)[1..] == a[1..] + b && (a + b)[0] == a[0];
      var r, t := Survivors(a[1..], walk, eps), Survivors(b, walk, eps);
      assert [a[0]] + (r + t) == ([a[0]] + r) + t && [] + (r + t) == ([] + r) + t;
    }
  }

  lemma MergeOfMerged(kept: seq<Pair>, walk: seq<Pair>, maxPoints: nat, eps: real)
    requires eps >= 0.0 && |kept| + |walk| <= maxPoints
    requires forall p | p in kept :: !NearWalk(walk, p, eps)
    ensures Merge(kept + walk, walk, maxPoints, eps) == kept + walk
  {
    MergedSurvivors(kept, walk, eps);
  }

  lemma MergedSurvivors(kept: seq<Pair>, walk: seq<Pair>, eps: real)
    requires eps >= 0.0 && forall p | p in kept :: !NearWalk(walk, p, eps)
    ensures Survivors(kept + walk, walk, eps) == kept
  {
    SurvivorsConcat(kept, walk, walk, eps);
    FarSurvive(kept, walk, eps);
    NearVanish(walk, walk, eps);
  }

  lemma MergeOfOverfull(walk: seq<Pair>, part: seq<Pair>, maxPoints: nat, eps: real)
    requires eps >= 0.0 && part == TakeLast(walk, maxPoints)
    ensures Merge(part, walk, maxPoints, eps) == part
  {
    NearVanish(part, walk, eps);
    assert [] + walk == walk;
  }

  // Merging the same walk twice is merging it once.
  lemma MergeTwice(ps: seq<Pair>, walk: seq<Pair>, maxPoints: nat, eps: real)
    requires eps >= 0.0
    ensures Merge(Merge(ps, walk, maxPoints, eps), walk, maxPoints, eps) == Merge(ps, walk, maxPoints, eps)
  {
    var s := Survivors(ps, walk, eps);
    SurvivorsAreFar(ps, walk, eps);
    if |walk| <= maxPoints {
      var kept := TakeLast(s, maxPoints - |walk|);
      assert Merge(ps, walk, maxPoints, eps) == kept + walk;
      MergeOfMerged(kept, walk, maxPoints, eps);
    } else {
      var m := TakeLast(walk, maxPoints);
      assert Merge(ps, walk, maxPoints, eps) == m;
      MergeOfOverfull(walk, m, maxPoints, eps);
    }
  }

  // A fresh start stores the walk uncapped, so repeating it changes nothing
  // exactly when it fits.
  lemma FreshTwice(walk: seq<Pair>, maxPoints: nat, eps: real)
    requires eps >= 0.0
    ensures Merge(walk, walk, maxPoints, eps) == walk <==> |walk| <= maxPoints
  {
    NearVanish(walk, walk, eps);
  }

  // -- A whole history of walks ---------------------------------------------

  datatype Walk = Walk(size: Size, pairs: seq<Pair>)

  // What is stored after walking a history: each walk merged into what was there,
  // or starting afresh when the image size changed.
  function StoredAfter(history: seq<Walk>, maxPoints: nat, eps: real): (r: seq<Pair>) {
    if |history| == 0 then []
    else
      var front, last := history[..|history| - 1], history[|history| - 1];
      if |front| == 0 || front[|front| - 1].size != last.size then last.pairs
      else Merge(StoredAfter(front, maxPoints, eps), last.pairs, maxPoints, eps)
  }

  // The walks since the image size last changed.
  function SinceResize(history: seq<Walk>): (r: seq<seq<Pair>>) {
    if |history| == 0 then []
    else
      var front, last := history[..|history| - 1], history[|history| - 1];
      if |front| == 0 || front[|front| - 1].size != last.size then [last.pairs]
      else SinceResize(front) + [last.pairs]
  }

  predicate NearAny(later: seq<seq<Pair>>, p: Pair, eps: real) {
    exists j | 0 <= j < |later| :: NearWalk(later[j], p, eps)
  }

  // One walk's pairs that no later walk comes near.
  function Lasting(ps: seq<Pair>, later: seq<seq<Pair>>, eps: real): (r: seq<Pair>) {
    if |ps| == 0 then []
    else (if NearAny(later, ps[0], eps) then [] else [ps[0]]) + Lasting(ps[1..], later, eps)
  }

  // Every walk's lasting pairs, oldest walk first.
  function SurvivorList(walks: seq<seq<Pair>>, eps: real): (r: seq<Pair>) {
    if |walks| == 0 then [] else Lasting(walks[0], walks[1..], eps) + SurvivorList(walks[1..], eps)
  }

  ghost predicate IsSuffix<T>(a: seq<T>, b: seq<T>) {
    |a| <= |b| && b[|b| - |a|..] == a
  }

  lemma NearAnyAppend(later: seq<seq<Pair>>, walk: seq<Pair>, p: Pair, eps: real)
    ensures NearAny(later + [walk], p, eps) <==> NearAny(later, p, eps) || NearWalk(walk, p, eps)
  {
    var all := later + [walk];
    if NearAny(later, p, eps) {
      var j :| 0 <= j < |later| && NearWalk(later[j], p, eps);
      assert all[j] == later[j];
    }
    if NearWalk(walk, p, eps) { assert all[|later|] == walk; }
    if NearAny(all, p, eps) {
      var j :| 0 <= j < |all| && NearWalk(all[j], p, eps);
      if j < |later| { assert later[j] == all[j]; }
    }
  }

  lemma {:induction false} LastingAppend(ps: seq<Pair>, later: seq<seq<Pair>>, walk: seq<Pair>, eps: real)
    ensures Lasting(ps, later + [walk], eps) == Survivors(Lasting(ps, later, eps), walk, eps)
  {
    if |ps| > 0 {
      NearAnyAppend(later, walk, ps[0], eps);
      LastingAppend(ps[1..], later, walk, eps);
      var r := Lasting(ps[1..], later, eps);
      if !NearAny(later, ps[0], eps) {
        assert ([ps[0]] + r)[1..] == r;
      } else {
        assert [] + r == r;
      }
    }
  }

  lemma {:induction false} LastingAll(ps: seq<Pair>, eps: real)
    ensures Lasting(ps, [], eps) == ps
  {
    if |ps| > 0 {
      LastingAll(ps[1..], eps);
      assert [ps[0]] + ps[1..] == ps;
    }
  }

  lemma {:induction false} SurvivorListAppend(walks: seq<seq<Pair>>, walk: seq<Pair>, eps: real)
    ensures SurvivorList(walks + [walk], eps) == Survivors(SurvivorList(walks, eps), walk, eps) + walk
  {
    if |walks| == 0 {
      LastingAll(walk, eps);
      assert walks + [walk] == [walk];
    } else {
      var rest := walks[1..];
      assert (walks + [walk])[1..] == rest + [walk];
      SurvivorListAppend(rest, walk, eps);
      LastingAppend(walks[0], rest, walk, eps);
      SurvivorsConcat(Lasting(walks[0], rest, eps), SurvivorList(rest, eps), walk, eps);
    }
  }

  lemma SurvivorsOfSuffix(a: seq<Pair>, b: seq<Pair>, walk: seq<Pair>, eps: real)
    requires IsSuffix(a, b)
    ensures IsSuffix(Survivors(a, walk, eps), Survivors(b, walk, eps))
  {
    var front := b[..|b| - |a|];
    assert b == front + a;
    SurvivorsConcat(front, a, walk, eps);
  }

  lemma TailIsSuffix<T>(a: seq<T>, b: seq<T>, c: seq<T>, n: nat)
    requires IsSuffix(a, b)
    ensures IsSuffix(TakeLast(a + c, n), b + c)
  {
    assert IsSuffix(a + c, b + c);
  }

  lemma MergeIsSuffix(st: seq<Pair>, list: seq<Pair>, walk: seq<Pair>, maxPoints: nat, eps: real)
    requires IsSuffix(st, list)
    ensures IsSuffix(Merge(st, walk, maxPoints, eps), Survivors(list, walk, eps) + walk)
  {
    SurvivorsOfSuffix(st, list, walk, eps);
    TailIsSuffix(Survivors(st, walk, eps), Survivors(list, walk, eps), walk, maxPoints);
  }

  lemma OneWalkSurvives(walk: seq<Pair>, eps: real)
    ensures SurvivorList([walk], eps) == walk
  {
    LastingAll(walk, eps);
    assert |[walk][1..]| == 0;
    assert walk + [] == walk;
  }

  // Whatever was walked, what is stored is a suffix of the survivor list of the
  // walks since the last resize: each pair in walking order, kept only if no
  // later walk came within eps of it. Old pairs leave from the front only.
  lemma {:induction false} StoredIsSuffix(history: seq<Walk>, maxPoints: nat, eps: real)
    ensures IsSuffix(StoredAfter(history, maxPoints, eps), SurvivorList(SinceResize(history), eps))
  {
    if |history| > 0 {
      var front, last := history[..|history| - 1], history[|history| - 1];
      if |front| == 0 || front[|front| - 1].size != last.size {
        OneWalkSurvives(last.pairs, eps);
      } else {
        StoredIsSuffix(front, maxPoints, eps);
        var st, list := StoredAfter(front, maxPoints, eps), SurvivorList(SinceResize(front), eps);
        SurvivorListAppend(SinceResize(front), last.pairs, eps);
        MergeIsSuffix(st, list, last.pairs, maxPoints, eps);
      }
    }
  }

  // While the survivors have always fitted under the cap, nothing at all is lost.
  lemma {:induction false} StoredIsEverything(history: seq<Walk>, maxPoints: nat, eps: real)
    requires forall k | 0 <= k <= |history| :: |SurvivorList(SinceResize(history[..k]), eps)| <= maxPoints
    ensures StoredAfter(history, maxPoints, eps) == SurvivorList(SinceResize(history), eps)
  {
    assert history[..|history|] == history;
    if |history| > 0 {
      var front, last := history[..|history| - 1], history[|history| - 1];
      if |front| == 0 || front[|front| - 1].size != last.size {
        OneWalkSurvives(last.pairs, eps);
      } else {
        forall k | 0 <= k <= |front| ensures |SurvivorList(SinceResize(front[..k]), eps)| <= maxPoints {
          assert front[..k] == history[..k];
        }
        StoredIsEverything(front, maxPoints, eps);
        SurvivorListAppend(SinceResize(front), last.pairs, eps);
      }
    }
  }

  // A camera walked for ever stays bounded once each walk fits.
  lemma {:induction false} StoredBounded(history: seq<Walk>, maxPoints: nat, eps: real)
    requires forall w | w in history :: |w.pairs| <= maxPoints
    ensures |StoredAfter(history, maxPoints, eps)| <= maxPoints
  {
    if |history| > 0 {
      assert history[|history| - 1] in history;
    }
  }
}
