// The guided walk: stand at each known spot, capture, repeat, solve
// (backend/wavr/calib_session.py).
module CalibSession {
  import opened Prelude
  import opened PyDict
  import opened OldestOut

  type Pixel = (real, real)
  type Spot = (real, real)
  type Size = (int, int)

  datatype State = Walking | Ready | Solved | Aborted
  datatype Walk = Walk(state: State, spotIdx: nat, pairs: seq<(Pixel, Spot)>, imgSize: Option<Size>, touched: real)
  datatype Refusal = NotWalking | NoSpotLeft | SizeChanged | CannotRetry | NothingToRetry

  datatype Op =
    | Capture(px: Pixel, size: Size, now: real)
    | Retry(now: real)
    | Abort(now: real)
    | MarkSolved(now: real)

  function Begin(now: real): (w: Walk) { Walk(Walking, 0, [], None, now) }

  function Refused(spots: seq<Spot>, w: Walk, op: Op): (e: Option<Refusal>) {
    match op
    case Capture(_, size, _) =>
      if !w.state.Walking? then Some(NotWalking)
      else if w.spotIdx >= |spots| then Some(NoSpotLeft)
      else if w.imgSize.Some? && w.imgSize.value != size then Some(SizeChanged)
      else None
    case Retry(_) =>
      if !(w.state.Walking? || w.state.Ready?) then Some(CannotRetry)
      else if w.pairs == [] then Some(NothingToRetry)
      else None
    case _ => None
  }

  // The walk after one call; a refused one changes nothing.
  function Step(spots: seq<Spot>, w: Walk, op: Op): (r: Walk) {
    if Refused(spots, w, op).Some? then w
    else
      match op
      case Capture(px, size, now) =>
        Walk(if w.spotIdx + 1 >= |spots| then Ready else Walking, w.spotIdx + 1,
             w.pairs + [(px, spots[w.spotIdx])], Some(size), now)
      case Retry(now) =>
        Walk(Walking, if w.spotIdx == 0 then 0 else w.spotIdx - 1, w.pairs[..|w.pairs| - 1], w.imgSize, now)
      case Abort(now) => w.(pairs := [], state := Aborted, touched := now)
      case MarkSolved(now) => w.(state := Solved, touched := now)
  }

  function Run(spots: seq<Spot>, start: real, ops: seq<Op>): (w: Walk) {
    if |ops| == 0 then Begin(start) else Step(spots, Run(spots, start, ops[..|ops| - 1]), ops[|ops| - 1])
  }

  // -- What a history of calls amounts to ----------------------------------------------

  predicate Terminal(op: Op) { op.Abort? || op.MarkSolved? }

  // The size of the first capture there was, undone or not; the walk takes no other.
  function Lock(spots: seq<Spot>, ops: seq<Op>): (s: Option<Size>) {
    if |spots| == 0 then None else FirstSize(ops)
  }

  function FirstSize(ops: seq<Op>): (s: Option<Size>) {
    if |ops| == 0 || Terminal(ops[0]) then None
    else if ops[0].Capture? then Some(ops[0].size)
    else FirstSize(ops[1..])
  }

  // The captures standing: a stack that a capture pushes on while it has room and the
  // size is the locked one, a retry pops, an abort empties, and the first abort or
  // solve closes.
  function Standing(spots: seq<Spot>, ops: seq<Op>): (k: seq<Op>)
    ensures |k| <= |spots|
  {
    if |ops| == 0 then []
    else
      var prior := ops[..|ops| - 1];
      var op := ops[|ops| - 1];
      var k := Standing(spots, prior);
      if op.Abort? then []
      else if Closed(prior) || op.MarkSolved? then k
      else if op.Retry? then (if k == [] then [] else k[..|k| - 1])
      else if |k| < |spots| && (FirstSize(prior).None? || FirstSize(prior) == Some(op.size)) then k + [op]
      else k
  }

  predicate Closed(ops: seq<Op>) { exists i | 0 <= i < |ops| :: Terminal(ops[i]) }

  predicate HasAbort(ops: seq<Op>) { exists i | 0 <= i < |ops| :: ops[i].Abort? }

  // The last of the calls that ended the walk.
  function LastTerminal(ops: seq<Op>): (s: State)
    requires Closed(ops)
    ensures s.Aborted? || s.Solved?
  {
    var op := ops[|ops| - 1];
    if op.Abort? then Aborted
    else if op.MarkSolved? then Solved
    else LastTerminal(ops[..|ops| - 1])
  }

  // Solved or aborted as the last such call said; otherwise ready exactly when there
  // is a spot and every spot has its capture standing, and walking until then.
  function StateOf(spots: seq<Spot>, ops: seq<Op>): (s: State) {
    if Closed(ops) then LastTerminal(ops)
    else if |spots| > 0 && |Standing(spots, ops)| == |spots| then Ready
    else Walking
  }

  ghost predicate PairsAre(spots: seq<Spot>, kept: seq<Op>, pairs: seq<(Pixel, Spot)>) {
    && |pairs| == |kept| <= |spots|
    && forall i | 0 <= i < |pairs| :: kept[i].Capture? && pairs[i] == (kept[i].px, spots[i])
  }

  ghost predicate OneSize(kept: seq<Op>, lock: Option<Size>) {
    forall i | 0 <= i < |kept| :: kept[i].Capture? && Some(kept[i].size) == lock
  }

  lemma {:induction false} FirstSizeAppend(ops: seq<Op>, op: Op)
    ensures FirstSize(ops + [op])
            == if FirstSize(ops).Some? || Closed(ops) || !op.Capture? then FirstSize(ops) else Some(op.size)
  {
    if |ops| == 0 {
      assert (ops + [op])[0] == op;
    } else {
      assert (ops + [op])[0] == ops[0];
      assert (ops + [op])[1..] == ops[1..] + [op];
      if !Terminal(ops[0]) && !ops[0].Capture? {
        FirstSizeAppend(ops[1..], op);
        assert Closed(ops) <==> Closed(ops[1..]) by {
          forall i | 0 <= i < |ops| ensures Terminal(ops[i]) ==> Closed(ops[1..]) {
            if i > 0 { assert ops[1..][i - 1] == ops[i]; }
          }
          forall i | 0 <= i < |ops[1..]| ensures Terminal(ops[1..][i]) ==> Closed(ops) {
            assert ops[1..][i] == ops[i + 1];
          }
        }
      }
    }
  }

  lemma ClosedAppend(ops: seq<Op>, op: Op)
    ensures Closed(ops + [op]) <==> Closed(ops) || Terminal(op)
    ensures HasAbort(ops + [op]) <==> HasAbort(ops) || op.Abort?
  {
    var all := ops + [op];
    assert all[|ops|] == op;
    forall i | 0 <= i < |ops|
      ensures (Terminal(ops[i]) ==> Closed(all)) && (ops[i].Abort? ==> HasAbort(all))
    {
      assert all[i] == ops[i];
    }
  }

  ghost predicate Holds(spots: seq<Spot>, ops: seq<Op>, w: Walk) {
    var kept := Standing(spots, ops);
    && PairsAre(spots, kept, w.pairs)
    && OneSize(kept, w.imgSize)
    && w.imgSize == Lock(spots, ops)
    && w.state == StateOf(spots, ops)
    && (if HasAbort(ops) then Closed(ops) && w.pairs == [] else w.spotIdx == |w.pairs|)
  }

  // What one more call does to the history's reading.
  lemma Append(spots: seq<Spot>, prior: seq<Op>, op: Op)
    ensures Closed(prior + [op]) <==> Closed(prior) || Terminal(op)
    ensures HasAbort(prior + [op]) <==> HasAbort(prior) || op.Abort?
    ensures Lock(spots, prior + [op])
            == if Lock(spots, prior).Some? || Closed(prior) || !op.Capture? || |spots| == 0 then Lock(spots, prior)
               else Some(op.size)
    ensures Standing(spots, prior + [op])
            == if op.Abort? then []
               else if Closed(prior) || op.MarkSolved? then Standing(spots, prior)
               else if op.Retry? then
                 (if Standing(spots, prior) == [] then []
                  else Standing(spots, prior)[..|Standing(spots, prior)| - 1])
               else if |Standing(spots, prior)| < |spots|
                       && (Lock(spots, prior).None? || Lock(spots, prior) == Some(op.size))
               then Standing(spots, prior) + [op]
               else Standing(spots, prior)
    ensures Closed(prior) && !Terminal(op) ==> StateOf(spots, prior + [op]) == StateOf(spots, prior)
    ensures Terminal(op) ==> StateOf(spots, prior + [op]) == if op.Abort? then Aborted else Solved
  {
    var ops := prior + [op];
    assert ops[..|ops| - 1] == prior && ops[|ops| - 1] == op;
    ClosedAppend(prior, op);
    FirstSizeAppend(prior, op);
  }

  lemma PushPair(spots: seq<Spot>, kept: seq<Op>, pairs: seq<(Pixel, Spot)>, op: Op)
    requires PairsAre(spots, kept, pairs) && op.Capture? && |kept| < |spots|
    requires OneSize(kept, Some(op.size)) || kept == []
    ensures PairsAre(spots, kept + [op], pairs + [(op.px, spots[|pairs|])])
    ensures OneSize(kept + [op], Some(op.size))
  {
  }

  lemma PopPair(spots: seq<Spot>, kept: seq<Op>, pairs: seq<(Pixel, Spot)>, lock: Option<Size>)
    requires PairsAre(spots, kept, pairs) && OneSize(kept, lock) && |kept| > 0
    ensures PairsAre(spots, kept[..|kept| - 1], pairs[..|pairs| - 1])
    ensures OneSize(kept[..|kept| - 1], lock)
  {
  }

  lemma CaptureHolds(spots: seq<Spot>, prior: seq<Op>, w: Walk, op: Op)
    requires Holds(spots, prior, w) && op.Capture?
    ensures Holds(spots, prior + [op], Step(spots, w, op))
  {
    Append(spots, prior, op);
    var kept := Standing(spots, prior);
    if Refused(spots, w, op).Some? {
      assert |kept| > 0 ==> Some(kept[0].size) == w.imgSize;
      assert Standing(spots, prior + [op]) == kept;
      assert Lock(spots, prior + [op]) == Lock(spots, prior);
      assert StateOf(spots, prior + [op]) == StateOf(spots, prior);
    } else {
      PushPair(spots, kept, w.pairs, op);
      assert !Closed(prior) && |kept| < |spots|;
      assert Standing(spots, prior + [op]) == kept + [op];
      assert Lock(spots, prior + [op]) == Some(op.size);
    }
  }

  lemma RetryHolds(spots: seq<Spot>, prior: seq<Op>, w: Walk, op: Op)
    requires Holds(spots, prior, w) && op.Retry?
    ensures Holds(spots, prior + [op], Step(spots, w, op))
  {
    Append(spots, prior, op);
    var kept := Standing(spots, prior);
    if Refused(spots, w, op).Some? {
      assert Standing(spots, prior + [op]) == kept;
      assert StateOf(spots, prior + [op]) == StateOf(spots, prior);
    } else {
      PopPair(spots, kept, w.pairs, w.imgSize);
      assert Standing(spots, prior + [op]) == kept[..|kept| - 1];
      assert StateOf(spots, prior + [op]) == Walking;
    }
  }

  lemma TerminalHolds(spots: seq<Spot>, prior: seq<Op>, w: Walk, op: Op)
    requires Holds(spots, prior, w) && Terminal(op)
    ensures Holds(spots, prior + [op], Step(spots, w, op))
  {
    Append(spots, prior, op);
  }

  // In every run, the pairs are the captures standing, each with its own spot in
  // order; all of them have the one size locked at the first capture; the state is
  // what the history says; and the index is the number of pairs until an abort.
  lemma {:induction false} RunIsStanding(spots: seq<Spot>, start: real, ops: seq<Op>)
    ensures Holds(spots, ops, Run(spots, start, ops))
  {
    if |ops| > 0 {
      var prior := ops[..|ops| - 1];
      RunIsStanding(spots, start, prior);
      var w := Run(spots, start, prior);
      var op := ops[|ops| - 1];
      if op.Capture? { CaptureHolds(spots, prior, w, op); }
      else if op.Retry? { RetryHolds(spots, prior, w, op); }
      else { TerminalHolds(spots, prior, w, op); }
      assert prior + [op] == ops;
    }
  }

  // -- What follows ---------------------------------------------------------------------

  // A ready walk has a capture for every spot, at its place, all at one size.
  lemma ReadyIsWhole(spots: seq<Spot>, start: real, ops: seq<Op>)
    requires Run(spots, start, ops).state.Ready?
    ensures var w := Run(spots, start, ops);
            && |spots| > 0 && |w.pairs| == |spots| == w.spotIdx
            && (forall i | 0 <= i < |spots| :: w.pairs[i].1 == spots[i])
            && w.imgSize.Some?
            && forall i | 0 <= i < |Standing(spots, ops)| ::
                 Standing(spots, ops)[i].Capture? && Standing(spots, ops)[i].size == w.imgSize.value
  {
    RunIsStanding(spots, start, ops);
    var kept := Standing(spots, ops);
    assert Some(kept[0].size) == Run(spots, start, ops).imgSize;
    ClosedStays(ops, []);
    assert ops + [] == ops;
  }

  lemma {:induction false} ClosedStays(ops: seq<Op>, more: seq<Op>)
    ensures Closed(ops) ==> Closed(ops + more)
  {
    forall i | 0 <= i < |ops| ensures Terminal(ops[i]) ==> Closed(ops + more) { assert (ops + more)[i] == ops[i]; }
  }

  // A capture is taken exactly while the walk is open, a spot is left, and the size
  // is the locked one or none is locked.
  lemma CaptureTakenExactly(spots: seq<Spot>, start: real, ops: seq<Op>, px: Pixel, size: Size, now: real)
    ensures Refused(spots, Run(spots, start, ops), Capture(px, size, now)).None?
            <==> !Closed(ops) && |Standing(spots, ops)| < |spots|
                 && (Lock(spots, ops).None? || Lock(spots, ops) == Some(size))
  {
    RunIsStanding(spots, start, ops);
    if Closed(ops) { assert StateOf(spots, ops) != Walking; }
  }

  // Which call is refused for what.
  lemma RefusedFor(spots: seq<Spot>, w: Walk, op: Op)
    ensures var e := Refused(spots, w, op);
            && (e == Some(NotWalking) <==> op.Capture? && w.state != Walking)
            && (e == Some(NoSpotLeft) <==> op.Capture? && w.state == Walking && w.spotIdx >= |spots|)
            && (e == Some(SizeChanged) <==>
                  op.Capture? && w.state == Walking && w.spotIdx < |spots|
                  && w.imgSize != None && w.imgSize != Some(op.size))
            && (e == Some(CannotRetry) <==> op.Retry? && w.state != Walking && w.state != Ready)
            && (e == Some(NothingToRetry) <==> op.Retry? && (w.state == Walking || w.state == Ready) && w.pairs == [])
  {
  }

  // Every call that is not refused counts as using the session, at its own time; a
  // refused one does not.
  lemma TouchedExactly(spots: seq<Spot>, w: Walk, op: Op)
    ensures Step(spots, w, op).touched ==
              if Refused(spots, w, op).Some? then w.touched
              else match op
                   case Capture(_, _, now) => now
                   case Retry(now) => now
                   case Abort(now) => now
                   case MarkSolved(now) => now
  {
  }

  // A capture and a retry cancel: the pairs, the index and the state are what they
  // were. The size lock stays.
  lemma CaptureThenRetry(spots: seq<Spot>, start: real, ops: seq<Op>, px: Pixel, size: Size, now: real, later: real)
    requires Refused(spots, Run(spots, start, ops), Capture(px, size, now)).None?
    ensures var w := Run(spots, start, ops);
            var z := Run(spots, start, ops + [Capture(px, size, now)] + [Retry(later)]);
            z == w.(imgSize := Some(size), touched := later)
  {
    var c := Capture(px, size, now);
    var one, two := ops + [c], ops + [c] + [Retry(later)];
    assert one[..|one| - 1] == ops && two[..|two| - 1] == one;
    var w := Run(spots, start, ops);
    var mid := Step(spots, w, c);
    assert mid.pairs[..|mid.pairs| - 1] == w.pairs;
  }

  // A solved or aborted walk is never walking or ready again, whatever is called.
  lemma NeverReopens(spots: seq<Spot>, start: real, ops: seq<Op>, more: seq<Op>)
    requires Run(spots, start, ops).state.Solved? || Run(spots, start, ops).state.Aborted?
    ensures Run(spots, start, ops + more).state.Solved? || Run(spots, start, ops + more).state.Aborted?
  {
    RunIsStanding(spots, start, ops);
    RunIsStanding(spots, start, ops + more);
    ClosedStays(ops, more);
  }

  lemma {:induction false} FirstSizeStays(ops: seq<Op>, more: seq<Op>)
    requires FirstSize(ops).Some?
    ensures FirstSize(ops + more) == FirstSize(ops)
  {
    assert (ops + more)[0] == ops[0];
    assert (ops + more)[1..] == ops[1..] + more;
    if !ops[0].Capture? { FirstSizeStays(ops[1..], more); }
  }

  // The size the first capture locked stays locked, even when every capture is undone.
  lemma LockStays(spots: seq<Spot>, start: real, ops: seq<Op>, more: seq<Op>)
    requires Run(spots, start, ops).imgSize.Some?
    ensures Run(spots, start, ops + more).imgSize == Run(spots, start, ops).imgSize
  {
    RunIsStanding(spots, start, ops);
    RunIsStanding(spots, start, ops + more);
    FirstSizeStays(ops, more);
  }

  // Some abort found captures standing.
  predicate LostCaptures(spots: seq<Spot>, ops: seq<Op>) {
    exists i | 0 <= i < |ops| :: ops[i].Abort? && Standing(spots, ops[..i]) != []
  }

  lemma LostCapturesAppend(spots: seq<Spot>, prior: seq<Op>, op: Op)
    ensures LostCaptures(spots, prior + [op])
            <==> LostCaptures(spots, prior) || (op.Abort? && Standing(spots, prior) != [])
    ensures LostCaptures(spots, prior) ==> HasAbort(prior)
  {
    var ops := prior + [op];
    forall i | 0 <= i <= |prior| ensures ops[..i] == prior[..i] {}
    assert prior[..|prior|] == prior && ops[|prior|] == op;
    forall i | 0 <= i < |prior| ensures ops[i] == prior[i] {}
    if LostCaptures(spots, prior) {
      var i :| 0 <= i < |prior| && prior[i].Abort? && Standing(spots, prior[..i]) != [];
      assert ops[i].Abort?;
    }
  }

  // The index is the number of pairs exactly when no abort found captures standing:
  // an abort clears the pairs and leaves the index, and nothing moves it afterwards.
  lemma {:induction false} IndexMatchesExactly(spots: seq<Spot>, start: real, ops: seq<Op>)
    ensures Run(spots, start, ops).spotIdx == |Run(spots, start, ops).pairs| <==> !LostCaptures(spots, ops)
  {
    if |ops| > 0 {
      var prior, op := ops[..|ops| - 1], ops[|ops| - 1];
      assert prior + [op] == ops;
      IndexMatchesExactly(spots, start, prior);
      RunIsStanding(spots, start, prior);
      RunIsStanding(spots, start, ops);
      LostCapturesAppend(spots, prior, op);
      ClosedAppend(prior, op);
    }
  }

  // -- The objects ------------------------------------------------------------------------

  class CalibSession {
    const camera: string
    const spots: seq<Spot>
    const started: real
    var state: State
    var spotIdx: nat
    var pairs: seq<(Pixel, Spot)>
    var imgSize: Option<Size>
    var touched: real

    constructor (camera: string, spots: seq<Spot>, now: real)
      ensures this.camera == camera && this.spots == spots && started == now && View() == Begin(now)
    {
      this.camera, this.spots, started := camera, spots, now;
      state, spotIdx, pairs, imgSize, touched := Walking, 0, [], None, now;
    }

    function View(): Walk
      reads this
    {
      Walk(state, spotIdx, pairs, imgSize, touched)
    }

    predicate Expired(ttl: real, now: real)
      reads this
    {
      now - touched > ttl
    }

    method Capture(px: Pixel, size: Size, now: real) returns (e: Option<Refusal>)
      modifies this
      ensures e == Refused(spots, old(View()), Op.Capture(px, size, now))
      ensures View() == Step(spots, old(View()), Op.Capture(px, size, now))
    {
      if state != Walking { return Some(NotWalking); }
      if spotIdx >= |spots| { return Some(NoSpotLeft); }
      if imgSize.None? {
        imgSize := Some(size);
      } else if imgSize != Some(size) {
        return Some(SizeChanged);
      }
      pairs := pairs + [(px, spots[spotIdx])];
      spotIdx := spotIdx + 1;
      touched := now;
      if spotIdx >= |spots| { state := Ready; }
      e := None;
    }

    method RetryCurrent(now: real) returns (e: Option<Refusal>)
      modifies this
      ensures e == Refused(spots, old(View()), Retry(now))
      ensures View() == Step(spots, old(View()), Retry(now))
    {
      if state != Walking && state != Ready { return Some(CannotRetry); }
      if pairs == [] { return Some(NothingToRetry); }
      pairs := pairs[..|pairs| - 1];
      spotIdx := if spotIdx == 0 then 0 else spotIdx - 1;
      state := Walking;
      touched := now;
      e := None;
    }

    method Abort(now: real)
      modifies this
      ensures View() == Step(spots, old(View()), Op.Abort(now))
    {
      pairs := [];
      state := Aborted;
      touched := now;
    }

    method MarkSolved(now: real)
      modifies this
      ensures View() == Step(spots, old(View()), Op.MarkSolved(now))
    {
      state := Solved;
      touched := now;
    }
  }

  function Started(s: CalibSession): real { s.started }

  lemma PutSession(d: Dict<string, CalibSession>, max: nat, name: string, s: CalibSession)
    requires Unique(d) && |d| <= max && forall x | x in d :: Started(x.1) <= Started(s)
    ensures var r := Put(d, Started, max, name, s);
            && |r| <= max && Get(r, name) == (if max >= 1 then Some(s) else None)
            && (forall x | x in r :: Started(x.1) <= Started(s))
            && forall x, y | x in r && y in d && y.0 != name && y !in r :: Started(y.1) <= Started(x.1)
  {
    SetShape(d, name, s);
    PutStays(d, Started, max, name, s);
    EvictKeepsNewest(Set(d, name, s), Started, max);
  }

  class CalibSessionStore {
    const ttl: real
    const maxSessions: nat
    var sessions: Dict<string, CalibSession>
    ghost var clock: real   // the time of the last call

    ghost predicate Valid()
      reads this
    {
      && Unique(sessions) && |sessions| <= maxSessions
      && forall x | x in sessions :: Started(x.1) <= clock
    }

    constructor (ttl: real, maxSessions: nat, now: real)
      ensures Valid() && sessions == [] && clock == now
      ensures this.ttl == ttl && this.maxSessions == maxSessions
    {
      this.ttl, this.maxSessions := ttl, maxSessions;
      sessions := [];
      clock := now;
    }

    // A new walk replaces the camera's own and evicts the oldest ones over the cap,
    // never itself unless the cap is zero.
    method Start(name: string, spots: seq<Spot>, now: real) returns (s: CalibSession)
      requires Valid() && clock <= now
      modifies this
      ensures Valid() && clock == now
      ensures fresh(s) && s.camera == name && s.spots == spots && s.View() == Begin(now)
      ensures sessions == Put(old(sessions), Started, maxSessions, name, s)
      ensures Get(sessions, name) == if maxSessions >= 1 then Some(s) else None
      ensures forall x, y | x in sessions && y in old(sessions) && y.0 != name && y !in sessions ::
                Started(y.1) <= Started(x.1)
    {
      s := new CalibSession(name, spots, now);
      PutSession(sessions, maxSessions, name, s);
      sessions := PutCapped(sessions, Started, maxSessions, name, s);
      clock := now;
    }

    // The camera's session while it is live; one idle past the TTL is dropped here.
    method Lookup(name: string, now: real) returns (r: Option<CalibSession>)
      requires Valid() && clock <= now
      modifies this
      ensures Valid() && clock == now
      ensures r.Some? <==> Get(old(sessions), name).Some? && now <= Get(old(sessions), name).value.touched + ttl
      ensures r == if Get(old(sessions), name).Some? && !Get(old(sessions), name).value.Expired(ttl, now)
                   then Get(old(sessions), name) else None
      ensures r.Some? ==> sessions == old(sessions)
      ensures r.None? ==> Get(sessions, name) == None
      ensures forall q | q != name :: Get(sessions, q) == Get(old(sessions), q)
    {
      clock := now;
      r := Get(sessions, name);
      if r.Some? && r.value.Expired(ttl, now) {
        End(name);
        r := None;
      }
    }

    method End(name: string)
      requires Valid()
      modifies `sessions
      ensures Valid() && Get(sessions, name) == None
      ensures forall q | q != name :: Get(sessions, q) == Get(old(sessions), q)
    {
      forall q ensures Get(Del(sessions, name), q) == if q == name then None else Get(sessions, q) {
        GetDel(sessions, name, q);
      }
      DelKeepsOrder(sessions, name);
      DelIsFilter(sessions, name);
      sessions := Del(sessions, name);
    }
  }
}
