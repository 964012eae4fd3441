// Progressive calibration: merge a walk into the stored points, solve over the
// union, then persist the homography and the points in two separate writes
// (backend/wavr/calib_refine.py, solve_progressive).
module CalibRefine {
  import opened Prelude
  import opened CalibMerge
  import opened CalibStore

  const DEDUP_EPS_M := 0.05

  // The homography solve, its quality taken from its residual. It refuses
  // degenerate or malformed correspondences by raising.
  datatype Solved = Solved(homography: seq<real>, quality: real)
  type Solver = (seq<Point>, seq<Point>) -> Option<Solved>

  datatype Outcome =
    | SolveFailed
    | HomographyRefused(e: CalibError)
    | PointsRefused(e: CalibError)     // after the homography has been written
    | Done(nPoints: nat, nNew: nat)

  // The points a call solves over.
  function Merged(t: Table, name: string, newImage: seq<Point>, newFloor: seq<Point>, size: Size)
    : (r: (seq<Point>, seq<Point>))
  {
    var row := RowOf(t, name);
    MergeLists(if row.points.Some? then Some(row.points.value.0) else None,
               if row.points.Some? then Some(row.points.value.1) else None,
               row.size, newImage, newFloor, Some(size), MAX_POINTS, DEDUP_EPS_M)
  }

  function SolveOutcome(sizes: Sizes, solver: Solver, t: Table, name: string,
                        newImage: seq<Point>, newFloor: seq<Point>, size: Size): (r: Outcome)
  {
    var m := Merged(t, name, newImage, newFloor, size);
    match solver(m.0, m.1)
    case None => SolveFailed
    case Some(s) =>
      match HomographyFault(sizes, s.homography, size, Some(s.quality))
      case Some(e) => HomographyRefused(e)
      case None =>
        match PointsFault(sizes, m.0, m.1, size)
        case Some(e) => PointsRefused(e)
        case None => Done(|m.0|, |newImage|)
  }

  function AfterSolve(sizes: Sizes, solver: Solver, t: Table, name: string,
                      newImage: seq<Point>, newFloor: seq<Point>, size: Size): (t': Table)
  {
    var m := Merged(t, name, newImage, newFloor, size);
    match solver(m.0, m.1)
    case None => t
    case Some(s) =>
      var t1 := TableAfter(t, HomographySet(sizes, t, name, s.homography, size, Some(s.quality)));
      if HomographyFault(sizes, s.homography, size, Some(s.quality)).Some? then t1
      else TableAfter(t1, PointsSet(sizes, t1, name, m.0, m.1, size))
  }

  method SolveProgressive(store: CalibrationStore, solver: Solver, name: string,
                          newImage: seq<Point>, newFloor: seq<Point>, size: Size) returns (out: Outcome)
    modifies store
    ensures out == SolveOutcome(store.sizes, solver, old(store.rows), name, newImage, newFloor, size)
    ensures store.rows == AfterSolve(store.sizes, solver, old(store.rows), name, newImage, newFloor, size)
  {
    var prior := store.Get(name);
    var existing: Option<(seq<Point>, seq<Point>)> := if prior.Some? then prior.value.points else None;
    var existingSize := if prior.Some? then prior.value.size else None;
    var existingImage := if existing.Some? then Some(existing.value.0) else None;
    var existingFloor := if existing.Some? then Some(existing.value.1) else None;
    var image, floor := MergePoints(existingImage, existingFloor, existingSize, newImage, newFloor, Some(size),
                                    MAX_POINTS, DEDUP_EPS_M);
    var h := solver(image, floor);
    if h.None? { return SolveFailed; }
    NumbersFault(store.sizes, h.value.homography, size, Some(h.value.quality));
    AsEntriesRead(h.value.homography);
    var e := store.SetHomography(name, Entries(AsEntries(h.value.homography)), size, Some(Finite(h.value.quality)));
    if e.Some? { return HomographyRefused(e.value); }
    PairsFault(store.sizes, image, floor, size);
    AsPairsRead(image);
    AsPairsRead(floor);
    e := store.SetPoints(name, Items(AsPairs(image)), Items(AsPairs(floor)), size);
    if e.Some? { return PointsRefused(e.value); }
    out := Done(|image|, |newImage|);
  }

  // -- One call ----------------------------------------------------------------

  // A row whose homography was solved from exactly the points beside it, under the
  // size those points were marked at.
  ghost predicate Coherent(solver: Solver, row: Row, marked: Size) {
    && (row.homography.Some? <==> row.points.Some?)
    && (row.points.Some? ==>
          var s := solver(row.points.value.0, row.points.value.1);
          && s.Some? && row.homography == Some(s.value.homography) && row.quality == Some(s.value.quality)
          && row.size == Some(marked))
  }

  // What a call writes: nothing when the solve or the homography is refused, the
  // solve of the merged points at this size otherwise, and never the mount or
  // another camera's row.
  lemma SolveWrites(sizes: Sizes, solver: Solver, t: Table, name: string,
                    newImage: seq<Point>, newFloor: seq<Point>, size: Size)
    ensures var out := SolveOutcome(sizes, solver, t, name, newImage, newFloor, size);
            var t' := AfterSolve(sizes, solver, t, name, newImage, newFloor, size);
            && (out.SolveFailed? || out.HomographyRefused? ==> t' == t)
            && (forall q | q != name :: RowOf(t', q) == RowOf(t, q))
            && RowOf(t', name).mount == RowOf(t, name).mount
            && (out.Done? ==>
                  && RowOf(t', name).points == Some(Merged(t, name, newImage, newFloor, size))
                  && RowOf(t', name).size == Some(size)
                  && out.nPoints == |RowOf(t', name).points.value.0| && out.nNew == |newImage|
                  && Coherent(solver, RowOf(t', name), size))
  {
  }

  // Once the homography is written, the points beside it are the ones it was
  // solved from exactly when they pass the point store's own limits. The two
  // writes are separate, so otherwise the call raises with the new homography
  // and size stored over the old points.
  lemma PointsFollowExactly(sizes: Sizes, solver: Solver, t: Table, name: string,
                            newImage: seq<Point>, newFloor: seq<Point>, size: Size)
    requires var out := SolveOutcome(sizes, solver, t, name, newImage, newFloor, size);
             out.Done? || out.PointsRefused?
    requires RowOf(t, name).points.Some? ==>
               |RowOf(t, name).points.value.0| == |RowOf(t, name).points.value.1| <= MAX_POINTS
               && sizes.points(RowOf(t, name).points.value.0, RowOf(t, name).points.value.1) <= MAX_POINTS_JSON_BYTES
    ensures var m := Merged(t, name, newImage, newFloor, size);
            var row := RowOf(AfterSolve(sizes, solver, t, name, newImage, newFloor, size), name);
            && row.homography == Some(solver(m.0, m.1).value.homography)
            && row.size == Some(size)
            && (row.points == Some(m)
                <==> |m.0| == |m.1| <= MAX_POINTS && sizes.points(m.0, m.1) <= MAX_POINTS_JSON_BYTES)
  {
  }

  // For instance: a first walk of more than 200 points. The merge does not cap
  // it, the homography is stored, the points are not.
  lemma OversizedFirstWalk(sizes: Sizes, solver: Solver, t: Table, name: string,
                           newImage: seq<Point>, newFloor: seq<Point>, size: Size, s: Solved)
    requires name !in t && |newImage| == |newFloor| > MAX_POINTS
    requires solver(newImage, newFloor) == Some(s)
    requires HomographyFault(sizes, s.homography, size, Some(s.quality)).None?
    ensures SolveOutcome(sizes, solver, t, name, newImage, newFloor, size) == PointsRefused(TooManyPoints)
    ensures var row := RowOf(AfterSolve(sizes, solver, t, name, newImage, newFloor, size), name);
            row.homography == Some(s.homography) && row.points.None?
  {
  }

  // Writing a homography alone keeps the old points under whatever size it names. The
  // row stays coherent exactly when it has points, the homography and quality are
  // their solve, and the size is the one they were marked at.
  lemma HomographyAloneExactly(sizes: Sizes, solver: Solver, t: Table, name: string,
                               h: seq<real>, size: Size, q: Option<real>, marked: Size)
    requires HomographyFault(sizes, h, size, q).None? && Coherent(solver, RowOf(t, name), marked)
    ensures var row := RowOf(HomographySet(sizes, t, name, h, size, q).value, name);
            Coherent(solver, row, marked)
            <==> && row.points.Some? && Some(h) == RowOf(t, name).homography && q == RowOf(t, name).quality
                 && RowOf(t, name).size == Some(size)
  {
  }

  // What a walk at another size solves over: after the size alone was overwritten, the
  // pixels of the old resolution are merged with those of the new one, where the walk
  // would have started afresh. The write does no harm exactly when the walk fits and
  // either fills the store by itself or leaves no old point standing.
  lemma ResizeMixesExactly(sizes: Sizes, t: Table, name: string, stored: seq<Pair>, walk: seq<Pair>,
                           h: seq<real>, size: Size, q: Option<real>)
    requires HomographyFault(sizes, h, size, q).None?
    requires RowOf(t, name).points == Some((Images(stored), Floors(stored))) && RowOf(t, name).size != Some(size)
    ensures var kept := Survivors(stored, walk, DEDUP_EPS_M);
            var before := Merged(t, name, Images(walk), Floors(walk), size);
            var resized := HomographySet(sizes, t, name, h, size, q).value;
            var after := Merged(resized, name, Images(walk), Floors(walk), size);
            && before == (Images(walk), Floors(walk))
            && after == (Images(TakeLast(kept + walk, MAX_POINTS)), Floors(TakeLast(kept + walk, MAX_POINTS)))
            && (after == before <==> |walk| <= MAX_POINTS && (|walk| == MAX_POINTS || kept == []))
  {
    MergeStaysPaired(stored, walk, size, MAX_POINTS, DEDUP_EPS_M);
    var kept := Survivors(stored, walk, DEDUP_EPS_M);
    var m := TakeLast(kept + walk, MAX_POINTS);
    if |m| == |walk| { assert m == walk; }
  }

  // -- Every run ---------------------------------------------------------------

  datatype Op =
    | Solve(name: string, walk: Walk)
    | PutMount(name: string, mount: Mount)
    | Remove(name: string)

  function Step(sizes: Sizes, solver: Solver, t: Table, op: Op): (t': Table) {
    match op
    case Solve(name, w) => AfterSolve(sizes, solver, t, name, Images(w.pairs), Floors(w.pairs), w.size)
    case PutMount(name, m) => TableAfter(t, MountSet(sizes, t, name, m))
    case Remove(name) => t - {name}
  }

  function OutcomeOf(sizes: Sizes, solver: Solver, t: Table, op: Op): (r: Option<Outcome>) {
    match op
    case Solve(name, w) => Some(SolveOutcome(sizes, solver, t, name, Images(w.pairs), Floors(w.pairs), w.size))
    case _ => None
  }

  function Run(sizes: Sizes, solver: Solver, ops: seq<Op>): (t: Table) {
    if |ops| == 0 then map[] else Step(sizes, solver, Run(sizes, solver, ops[..|ops| - 1]), ops[|ops| - 1])
  }

  // The walks of a camera that were solved and stored since it was last removed.
  function History(sizes: Sizes, solver: Solver, ops: seq<Op>, name: string): (h: seq<Walk>) {
    if |ops| == 0 then []
    else
      var front, last := ops[..|ops| - 1], ops[|ops| - 1];
      var before := History(sizes, solver, front, name);
      if last.name != name then before
      else
        match last
        case Remove(_) => []
        case PutMount(_, _) => before
        case Solve(_, w) =>
          if OutcomeOf(sizes, solver, Run(sizes, solver, front), last).value.Done? then before + [w] else before
  }

  // No call's point set is refused.
  ghost predicate PointsAlwaysFit(sizes: Sizes, solver: Solver, ops: seq<Op>) {
    |ops| > 0 ==>
      var front, last := ops[..|ops| - 1], ops[|ops| - 1];
      && PointsAlwaysFit(sizes, solver, front)
      && (last.Solve? ==> !OutcomeOf(sizes, solver, Run(sizes, solver, front), last).value.PointsRefused?)
  }

  // What a caller can look at instead: every walk is at most 200 pairs, and no blob of
  // at most 200 of the walked pairs is over the cap.
  ghost predicate WalksFit(sizes: Sizes, ops: seq<Op>) {
    && (forall op | op in ops && op.Solve? :: |op.walk.pairs| <= MAX_POINTS)
    && (forall ps | |ps| <= MAX_POINTS && AllWalked(ops, ps) ::
          sizes.points(Images(ps), Floors(ps)) <= MAX_POINTS_JSON_BYTES)
  }

  ghost predicate AllWalked(ops: seq<Op>, ps: seq<Pair>) {
    forall p | p in ps :: exists op :: op in ops && op.Solve? && p in op.walk.pairs
  }

  // What a row holds after the walks of a history: nothing solved after none,
  // else the merge of the whole history at the last walk's size, and its solve.
  ghost predicate Holds(solver: Solver, row: Row, history: seq<Walk>) {
    if |history| == 0 then row.homography.None? && row.points.None? && row.size.None? && row.quality.None?
    else
      var stored := StoredAfter(history, MAX_POINTS, DEDUP_EPS_M);
      && row.points == Some((Images(stored), Floors(stored)))
      && row.size == Some(history[|history| - 1].size)
      && Coherent(solver, row, history[|history| - 1].size)
  }

  lemma MergedHistory(sizes: Sizes, solver: Solver, t: Table, name: string, history: seq<Walk>, w: Walk)
    requires Holds(solver, RowOf(t, name), history)
    ensures var stored := StoredAfter(history + [w], MAX_POINTS, DEDUP_EPS_M);
            Merged(t, name, Images(w.pairs), Floors(w.pairs), w.size) == (Images(stored), Floors(stored))
  {
    assert (history + [w])[..|history|] == history;
    if |history| > 0 && history[|history| - 1].size == w.size {
      MergeStaysPaired(StoredAfter(history, MAX_POINTS, DEDUP_EPS_M), w.pairs, w.size, MAX_POINTS, DEDUP_EPS_M);
    }
  }

  lemma {:induction false} RunHoldsIfNoneRefused(sizes: Sizes, solver: Solver, ops: seq<Op>, name: string)
    requires PointsAlwaysFit(sizes, solver, ops)
    ensures Holds(solver, RowOf(Run(sizes, solver, ops), name), History(sizes, solver, ops, name))
  {
    if |ops| > 0 {
      var front, last := ops[..|ops| - 1], ops[|ops| - 1];
      RunHoldsIfNoneRefused(sizes, solver, front, name);
      StepHolds(sizes, solver, front, last, name);
    }
  }

  lemma {:induction false} HistoryIsWalked(sizes: Sizes, solver: Solver, ops: seq<Op>, name: string)
    ensures forall w | w in History(sizes, solver, ops, name) :: exists op :: op in ops && op.Solve? && op.walk == w
  {
    if |ops| > 0 {
      var front, last := ops[..|ops| - 1], ops[|ops| - 1];
      HistoryIsWalked(sizes, solver, front, name);
      forall w | w in History(sizes, solver, ops, name) ensures exists op :: op in ops && op.Solve? && op.walk == w {
        if w in History(sizes, solver, front, name) {
          var op :| op in front && op.Solve? && op.walk == w;
          assert op in ops;
        } else {
          assert last in ops;
        }
      }
    }
  }

  // Whatever is stored was walked.
  lemma {:induction false} StoredIsWalked(history: seq<Walk>, maxPoints: nat, eps: real)
    ensures forall p | p in StoredAfter(history, maxPoints, eps) :: exists w :: w in history && p in w.pairs
  {
    if |history| > 0 {
      var front, last := history[..|history| - 1], history[|history| - 1];
      StoredIsWalked(front, maxPoints, eps);
      SurvivorsAreFar(StoredAfter(front, maxPoints, eps), last.pairs, eps);
      forall p | p in StoredAfter(history, maxPoints, eps) ensures exists w :: w in history && p in w.pairs {
        if p in last.pairs {
          assert last in history;
        } else {
          assert p in StoredAfter(front, maxPoints, eps);
          var w :| w in front && p in w.pairs;
          assert w in history;
        }
      }
    }
  }

  // Walks that fit are never refused.
  lemma {:induction false} FittingWalksAreStored(sizes: Sizes, solver: Solver, ops: seq<Op>)
    requires WalksFit(sizes, ops)
    ensures PointsAlwaysFit(sizes, solver, ops)
  {
    if |ops| > 0 {
      var front, last := ops[..|ops| - 1], ops[|ops| - 1];
      WalksFitPrefix(sizes, ops);
      FittingWalksAreStored(sizes, solver, front);
      if last.Solve? { LastFits(sizes, solver, ops); }
    }
  }

  lemma WalksFitPrefix(sizes: Sizes, ops: seq<Op>)
    requires WalksFit(sizes, ops) && |ops| > 0
    ensures WalksFit(sizes, ops[..|ops| - 1])
  {
    var front := ops[..|ops| - 1];
    forall op | op in front ensures op in ops {}
    forall ps | |ps| <= MAX_POINTS && AllWalked(front, ps)
      ensures sizes.points(Images(ps), Floors(ps)) <= MAX_POINTS_JSON_BYTES
    {
      assert AllWalked(ops, ps);
    }
  }

  // The points a last solve would store are few enough, and all walked.
  lemma LastStoredFits(sizes: Sizes, solver: Solver, ops: seq<Op>)
    requires |ops| > 0 && ops[|ops| - 1].Solve? && WalksFit(sizes, ops)
    ensures var front, last := ops[..|ops| - 1], ops[|ops| - 1];
            var stored := StoredAfter(History(sizes, solver, front, last.name) + [last.walk], MAX_POINTS, DEDUP_EPS_M);
            |stored| <= MAX_POINTS && AllWalked(ops, stored)
  {
    var front, last := ops[..|ops| - 1], ops[|ops| - 1];
    var before := History(sizes, solver, front, last.name);
    var history := before + [last.walk];
    HistoryIsWalked(sizes, solver, front, last.name);
    assert last in ops;
    forall w | w in history ensures exists op :: op in ops && op.Solve? && op.walk == w {
      if w in before {
        var op :| op in front && op.Solve? && op.walk == w;
        assert op in ops;
      }
    }
    StoredBounded(history, MAX_POINTS, DEDUP_EPS_M);
    StoredIsWalked(history, MAX_POINTS, DEDUP_EPS_M);
  }

  lemma LastFits(sizes: Sizes, solver: Solver, ops: seq<Op>)
    requires |ops| > 0 && ops[|ops| - 1].Solve? && WalksFit(sizes, ops)
    requires PointsAlwaysFit(sizes, solver, ops[..|ops| - 1])
    ensures !OutcomeOf(sizes, solver, Run(sizes, solver, ops[..|ops| - 1]), ops[|ops| - 1]).value.PointsRefused?
  {
    var front, last := ops[..|ops| - 1], ops[|ops| - 1];
    RunHoldsIfNoneRefused(sizes, solver, front, last.name);
    LastStoredFits(sizes, solver, ops);
    SmallIsNotRefused(sizes, solver, Run(sizes, solver, front), History(sizes, solver, front, last.name), last.name,
                      last.walk);
  }

  lemma SmallIsNotRefused(sizes: Sizes, solver: Solver, t: Table, history: seq<Walk>, name: string, w: Walk)
    requires Holds(solver, RowOf(t, name), history)
    requires var stored := StoredAfter(history + [w], MAX_POINTS, DEDUP_EPS_M);
             |stored| <= MAX_POINTS && sizes.points(Images(stored), Floors(stored)) <= MAX_POINTS_JSON_BYTES
    ensures !SolveOutcome(sizes, solver, t, name, Images(w.pairs), Floors(w.pairs), w.size).PointsRefused?
  {
    MergedHistory(sizes, solver, t, name, history, w);
  }

  // Over every run of solves, mount writes and removals whose walks fit: a camera's
  // stored points are the merge of exactly the walks solved since it was last
  // removed, at the last walk's image size, and its stored homography and quality are
  // the solve of those points.
  lemma RunHolds(sizes: Sizes, solver: Solver, ops: seq<Op>, name: string)
    requires WalksFit(sizes, ops)
    ensures Holds(solver, RowOf(Run(sizes, solver, ops), name), History(sizes, solver, ops, name))
  {
    FittingWalksAreStored(sizes, solver, ops);
    RunHoldsIfNoneRefused(sizes, solver, ops, name);
  }

  lemma SolveHolds(sizes: Sizes, solver: Solver, t: Table, h: seq<Walk>, n: string, w: Walk, name: string)
    requires Holds(solver, RowOf(t, name), h)
    requires !SolveOutcome(sizes, solver, t, n, Images(w.pairs), Floors(w.pairs), w.size).PointsRefused?
    ensures var done := SolveOutcome(sizes, solver, t, n, Images(w.pairs), Floors(w.pairs), w.size).Done?;
            Holds(solver, RowOf(AfterSolve(sizes, solver, t, n, Images(w.pairs), Floors(w.pairs), w.size), name),
                  if n == name && done then h + [w] else h)
  {
    SolveWrites(sizes, solver, t, n, Images(w.pairs), Floors(w.pairs), w.size);
    MergedHistory(sizes, solver, t, name, h, w);
  }

  lemma StepHolds(sizes: Sizes, solver: Solver, front: seq<Op>, last: Op, name: string)
    requires var t, h := Run(sizes, solver, front), History(sizes, solver, front, name);
             Holds(solver, RowOf(t, name), h)
    requires last.Solve? ==> !OutcomeOf(sizes, solver, Run(sizes, solver, front), last).value.PointsRefused?
    ensures Holds(solver, RowOf(Step(sizes, solver, Run(sizes, solver, front), last), name),
                  History(sizes, solver, front + [last], name))
  {
    var t, h := Run(sizes, solver, front), History(sizes, solver, front, name);
    assert (front + [last])[..|front|] == front;
    match last {
      case Solve(n, w) =>
        SolveHolds(sizes, solver, t, h, n, w, name);
      case PutMount(n, m) =>
      case Remove(n) =>
    }
  }

  // So every stored correspondence is one some walk measured and no later walk
  // of the same size came near, in walking order.
  lemma RunKeepsSurvivors(sizes: Sizes, solver: Solver, ops: seq<Op>, name: string)
    requires WalksFit(sizes, ops) && |History(sizes, solver, ops, name)| > 0
    ensures var h := History(sizes, solver, ops, name);
            exists stored ::
              && RowOf(Run(sizes, solver, ops), name).points == Some((Images(stored), Floors(stored)))
              && IsSuffix(stored, SurvivorList(SinceResize(h), DEDUP_EPS_M))
  {
    RunHolds(sizes, solver, ops, name);
    StoredIsSuffix(History(sizes, solver, ops, name), MAX_POINTS, DEDUP_EPS_M);
  }
}
