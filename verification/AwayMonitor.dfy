// House-level presence, debounced: home if any room is occupied, away after a run
// of all-vacant frames (backend/wavr/away.py).
module AwayMonitor {
  import opened Prelude

  datatype Frame = Frame(room: string, occupied: bool)

  // What leaves the monitor: the retained state, and on an edge the event, the
  // notification and the in-process call.
  datatype Message =
    | HouseState(home: bool)
    | HouseEvent(arrived: bool)
    | Notified(arrived: bool)
    | OnEdge(home: bool)

  // -- The meaning of a history of frames ----------------------------------------------

  // What the last frame of a room said.
  predicate Occupied(frames: seq<Frame>, room: string) {
    |frames| > 0 &&
    var f := frames[|frames| - 1];
    if f.room == room then f.occupied else Occupied(frames[..|frames| - 1], room)
  }

  ghost predicate Vacant(frames: seq<Frame>) {
    forall room :: !Occupied(frames, room)
  }

  // The last k frames each left every room vacant.
  ghost predicate VacantFor(frames: seq<Frame>, k: nat) {
    k <= |frames| && forall n | |frames| - k < n <= |frames| :: Vacant(frames[..n])
  }

  ghost predicate EverOccupied(frames: seq<Frame>) {
    exists n | 0 <= n <= |frames| :: !Vacant(frames[..n])
  }

  function AtLeastOne(grace: int): (k: nat) { if grace < 1 then 1 else grace }

  // Away when the trailing run of all-vacant frames reaches the grace, else home if
  // any frame left somebody in, else undetermined.
  ghost function HouseOf(frames: seq<Frame>, grace: int): (h: Option<bool>) {
    if VacantFor(frames, AtLeastOne(grace)) then Some(false)
    else if EverOccupied(frames) then Some(true)
    else None
  }

  // The values the house takes, each time it changes.
  ghost function Changes(frames: seq<Frame>, grace: int): (c: seq<bool>) {
    if |frames| == 0 then []
    else
      var c := Changes(frames[..|frames| - 1], grace);
      var h := HouseOf(frames, grace);
      if h.None? || (c != [] && c[|c| - 1] == h.value) then c else c + [h.value]
  }

  function EdgeMessages(home: bool, notify: bool, edge: bool): (m: seq<Message>) {
    [HouseEvent(home)] + (if notify then [Notified(home)] else []) + (if edge then [OnEdge(home)] else [])
  }

  // What one change sends: the first only its state.
  function Bundle(first: bool, home: bool, notify: bool, edge: bool): (m: seq<Message>) {
    if first then [HouseState(home)] else [HouseState(home)] + EdgeMessages(home, notify, edge)
  }

  function Sent(changes: seq<bool>, notify: bool, edge: bool): (m: seq<Message>) {
    if |changes| == 0 then []
    else
      var n := |changes| - 1;
      Sent(changes[..n], notify, edge) + Bundle(n == 0, changes[n], notify, edge)
  }

  lemma VacantAll(frames: seq<Frame>)
    ensures !Vacant(frames) ==> EverOccupied(frames)
  {
    assert frames[..|frames|] == frames;
  }

  lemma {:induction false} ChangesAlternate(frames: seq<Frame>, grace: int)
    ensures var c := Changes(frames, grace);
            && (forall i | 0 <= i < |c| - 1 :: c[i + 1] == !c[i])
            && (if c == [] then HouseOf(frames, grace) == None else HouseOf(frames, grace) == Some(c[|c| - 1]))
  {
    if |frames| == 0 {
      assert !EverOccupied(frames);
    } else {
      var prior := frames[..|frames| - 1];
      ChangesAlternate(prior, grace);
      forall n | 0 <= n <= |prior| ensures prior[..n] == frames[..n] {}
      if HouseOf(prior, grace).Some? {
        PriorSettled(frames, grace);
      }
    }
  }

  // Once determined, the house stays determined.
  lemma PriorSettled(frames: seq<Frame>, grace: int)
    requires |frames| > 0 && HouseOf(frames[..|frames| - 1], grace).Some?
    ensures HouseOf(frames, grace).Some?
  {
    var prior := frames[..|frames| - 1];
    var k := AtLeastOne(grace);
    if EverOccupied(prior) {
      var n :| 0 <= n <= |prior| && !Vacant(prior[..n]);
      assert prior[..n] == frames[..n];
    } else if Vacant(frames) {
      forall n | |frames| - k < n <= |frames| ensures Vacant(frames[..n]) {
        if n < |frames| { assert prior[..n] == frames[..n]; } else { assert frames[..n] == frames; }
      }
    } else {
      VacantAll(frames);
    }
  }

  // The length of the trailing run of all-vacant frames.
  ghost predicate IsStreak(frames: seq<Frame>, k: nat) {
    VacantFor(frames, k) && (k == |frames| || !Vacant(frames[..|frames| - k]))
  }

  lemma Prefixes(prior: seq<Frame>, f: Frame)
    ensures forall n | 0 <= n <= |prior| :: (prior + [f])[..n] == prior[..n]
    ensures (prior + [f])[..|prior| + 1] == prior + [f]
    ensures EverOccupied(prior + [f]) <==> EverOccupied(prior) || !Vacant(prior + [f])
  {
    var frames := prior + [f];
    forall n | 0 <= n <= |prior| ensures frames[..n] == prior[..n] {}
    assert frames[..|frames|] == frames;
    if EverOccupied(prior) {
      var n :| 0 <= n <= |prior| && !Vacant(prior[..n]);
      assert !Vacant(frames[..n]);
    }
    VacantAll(frames);
  }

  lemma OccupiedFrame(prior: seq<Frame>, f: Frame, grace: int)
    requires !Vacant(prior + [f])
    ensures IsStreak(prior + [f], 0) && HouseOf(prior + [f], grace) == Some(true)
  {
    var frames := prior + [f];
    assert frames[..|frames|] == frames;
    VacantAll(frames);
  }

  lemma VacantFrame(prior: seq<Frame>, f: Frame, grace: int, k: nat)
    requires Vacant(prior + [f]) && IsStreak(prior, k)
    ensures IsStreak(prior + [f], k + 1)
    ensures HouseOf(prior + [f], grace) == if k + 1 >= grace then Some(false) else HouseOf(prior, grace)
  {
    var frames := prior + [f];
    Prefixes(prior, f);
    forall n | |frames| - (k + 1) < n <= |frames| ensures Vacant(frames[..n]) {
      if n <= |prior| { assert frames[..n] == prior[..n]; }
    }
    if k + 1 < grace {
      assert !VacantFor(frames, grace) && !VacantFor(prior, grace) by {
        if k < |prior| { assert frames[..|prior| - k] == prior[..|prior| - k]; }
      }
    }
  }

  // What one determination adds to the log.
  lemma SentStep(prior: seq<Frame>, f: Frame, grace: int, notify: bool, edge: bool)
    ensures var was, h := HouseOf(prior, grace), HouseOf(prior + [f], grace);
            Sent(Changes(prior + [f], grace), notify, edge)
            == if h.None? || was == h then Sent(Changes(prior, grace), notify, edge)
               else Sent(Changes(prior, grace), notify, edge) + Bundle(was.None?, h.value, notify, edge)
  {
    var frames := prior + [f];
    assert frames[..|frames| - 1] == prior;
    ChangesAlternate(prior, grace);
    var c := Changes(prior, grace);
    var h := HouseOf(frames, grace);
    if h.Some? && HouseOf(prior, grace) != h {
      assert (c + [h.value])[..|c|] == c;
    }
  }

  // -- What each sink sees -----------------------------------------------------------------

  datatype Sink = RetainedState | EventTopic | Notification | Callback

  function Only(log: seq<Message>, sink: Sink): (r: seq<bool>) {
    if |log| == 0 then []
    else
      var rest := Only(log[..|log| - 1], sink);
      match log[|log| - 1]
      case HouseState(b) => if sink.RetainedState? then rest + [b] else rest
      case HouseEvent(b) => if sink.EventTopic? then rest + [b] else rest
      case Notified(b) => if sink.Notification? then rest + [b] else rest
      case OnEdge(b) => if sink.Callback? then rest + [b] else rest
  }

  lemma {:induction false} OnlyAppend(a: seq<Message>, b: seq<Message>, sink: Sink)
    ensures Only(a + b, sink) == Only(a, sink) + Only(b, sink)
  {
    if |b| == 0 {
      assert a + b == a;
    } else {
      var init := b[..|b| - 1];
      OnlyAppend(a, init, sink);
      assert (a + b)[..|a + b| - 1] == a + init && (a + b)[|a + b| - 1] == b[|b| - 1];
    }
  }

  predicate Wired(sink: Sink, notify: bool, edge: bool) {
    match sink
    case Notification => notify
    case Callback => edge
    case _ => true
  }

  lemma EdgeReaches(sink: Sink, home: bool, notify: bool, edge: bool)
    ensures Only(EdgeMessages(home, notify, edge), sink)
            == if !sink.RetainedState? && Wired(sink, notify, edge) then [home] else []
  {
    var note := if notify then [Notified(home)] else [];
    var call := if edge then [OnEdge(home)] else [];
    OnlyAppend([HouseEvent(home)] + note, call, sink);
    OnlyAppend([HouseEvent(home)], note, sink);
  }

  lemma BundleReaches(sink: Sink, first: bool, home: bool, notify: bool, edge: bool)
    ensures Only(Bundle(first, home, notify, edge), sink)
            == if sink.RetainedState? || (!first && Wired(sink, notify, edge)) then [home] else []
  {
    OnlyAppend([HouseState(home)], EdgeMessages(home, notify, edge), sink);
    EdgeReaches(sink, home, notify, edge);
  }

  function Seen(c: seq<bool>, sink: Sink, notify: bool, edge: bool): (r: seq<bool>) {
    if sink.RetainedState? then c
    else if |c| > 0 && Wired(sink, notify, edge) then c[1..]
    else []
  }

  lemma SeenStep(sent: seq<Message>, bundle: seq<Message>, c: seq<bool>, home: bool,
                 sink: Sink, notify: bool, edge: bool)
    requires Only(sent, sink) == Seen(c, sink, notify, edge)
    requires Only(bundle, sink)
             == if sink.RetainedState? || (|c| > 0 && Wired(sink, notify, edge)) then [home] else []
    ensures Only(sent + bundle, sink) == Seen(c + [home], sink, notify, edge)
  {
    OnlyAppend(sent, bundle, sink);
  }

  lemma SentAppend(c: seq<bool>, home: bool, notify: bool, edge: bool)
    ensures Sent(c + [home], notify, edge) == Sent(c, notify, edge) + Bundle(|c| == 0, home, notify, edge)
  {
    assert (c + [home])[..|c|] == c;
  }

  lemma SinkSeesNext(c: seq<bool>, home: bool, sink: Sink, notify: bool, edge: bool)
    requires Only(Sent(c, notify, edge), sink) == Seen(c, sink, notify, edge)
    ensures Only(Sent(c + [home], notify, edge), sink) == Seen(c + [home], sink, notify, edge)
  {
    var sent, bundle := Sent(c, notify, edge), Bundle(|c| == 0, home, notify, edge);
    BundleReaches(sink, |c| == 0, home, notify, edge);
    SeenStep(sent, bundle, c, home, sink, notify, edge);
    SentAppend(c, home, notify, edge);
  }

  lemma Rejoin(c: seq<bool>)
    requires |c| > 0
    ensures c[..|c| - 1] + [c[|c| - 1]] == c
  {
  }

  // The retained topic sees every change; the others, if wired, all but the first.
  lemma {:induction false} SinkSees(c: seq<bool>, sink: Sink, notify: bool, edge: bool)
    ensures Only(Sent(c, notify, edge), sink) == Seen(c, sink, notify, edge)
  {
    if |c| > 0 {
      var n := |c| - 1;
      SinkSees(c[..n], sink, notify, edge);
      Rejoin(c);
      SinkSeesNext(c[..n], c[n], sink, notify, edge);
    }
  }

  // Arrived and left strictly alternate; the first determination sends none, so
  // there is one event fewer than there are states; and the last event is the house.
  lemma EventsAlternate(frames: seq<Frame>, grace: int, notify: bool, edge: bool)
    ensures var log := Sent(Changes(frames, grace), notify, edge);
            var events, states := Only(log, EventTopic), Only(log, RetainedState);
            && (forall i | 0 <= i < |events| - 1 :: events[i + 1] == !events[i])
            && |events| == (if |states| == 0 then 0 else |states| - 1)
            && (events != [] ==> HouseOf(frames, grace) == Some(events[|events| - 1]) && events[0] == !states[0])
            && (notify ==> Only(log, Notification) == events)
            && (edge ==> Only(log, Callback) == events)
  {
    ChangesAlternate(frames, grace);
    var c := Changes(frames, grace);
    SinkSees(c, EventTopic, notify, edge);
    SinkSees(c, RetainedState, notify, edge);
    SinkSees(c, Notification, notify, edge);
    SinkSees(c, Callback, notify, edge);
    if |c| > 1 {
      var events := c[1..];
      assert events[0] == c[1] && c[0 + 1] == !c[0];
      forall i | 0 <= i < |events| - 1 ensures events[i + 1] == !events[i] {
        assert events[i + 1] == c[i + 2] && c[(i + 1) + 1] == !c[i + 1];
      }
    }
  }

  ghost predicate RoomsAre(frames: seq<Frame>, rooms: map<string, bool>) {
    forall room :: Occupied(frames, room) <==> room in rooms && rooms[room]
  }

  predicate AnyOf(rooms: map<string, bool>) { exists room | room in rooms :: rooms[room] }

  lemma RoomsStep(prior: seq<Frame>, rooms: map<string, bool>, f: Frame)
    requires RoomsAre(prior, rooms)
    ensures RoomsAre(prior + [f], rooms[f.room := f.occupied])
    ensures Vacant(prior + [f]) <==> !AnyOf(rooms[f.room := f.occupied])
  {
    var frames := prior + [f];
    assert frames[..|frames| - 1] == prior;
    var now := rooms[f.room := f.occupied];
    forall room ensures Occupied(frames, room) <==> room in now && now[room] {}
  }

  // Streak, house and log are where a history of frames says they are.
  ghost predicate Follows(frames: seq<Frame>, grace: int, notify: bool, edge: bool,
                          streak: nat, house: Option<bool>, log: seq<Message>) {
    && IsStreak(frames, streak)
    && house == HouseOf(frames, grace)
    && log == Sent(Changes(frames, grace), notify, edge)
  }

  // The log once the house is set.
  function Told(log: seq<Message>, was: Option<bool>, home: bool, notify: bool, edge: bool): (r: seq<Message>) {
    if was == Some(home) then log else log + Bundle(was.None?, home, notify, edge)
  }

  lemma FollowsFrame(prior: seq<Frame>, f: Frame, grace: int, notify: bool, edge: bool,
                     streak: nat, house: Option<bool>, log: seq<Message>)
    requires Follows(prior, grace, notify, edge, streak, house, log)
    ensures !Vacant(prior + [f]) ==>
              Follows(prior + [f], grace, notify, edge, 0, Some(true), Told(log, house, true, notify, edge))
    ensures Vacant(prior + [f]) ==>
              if streak + 1 >= grace
              then Follows(prior + [f], grace, notify, edge, streak + 1, Some(false),
                           Told(log, house, false, notify, edge))
              else Follows(prior + [f], grace, notify, edge, streak + 1, house, log)
  {
    SentStep(prior, f, grace, notify, edge);
    if Vacant(prior + [f]) {
      VacantFrame(prior, f, grace, streak);
    } else {
      OccupiedFrame(prior, f, grace);
    }
  }

  class AwayMonitor {
    const grace: int
    const notify: bool
    const edge: bool
    var rooms: map<string, bool>
    var house: Option<bool>
    var vacantStreak: nat
    var log: seq<Message>
    ghost var frames: seq<Frame>

    // The object is where its history of frames says it is.
    ghost predicate Valid()
      reads this
    {
      RoomsAre(frames, rooms) && Follows(frames, grace, notify, edge, vacantStreak, house, log)
    }

    constructor (grace: int, notify: bool, edge: bool)
      ensures Valid() && frames == []
      ensures this.grace == grace && this.notify == notify && this.edge == edge
    {
      this.grace, this.notify, this.edge := grace, notify, edge;
      rooms, house, vacantStreak, log, frames := map[], None, 0, [], [];
    }

    method Handle(f: Frame)
      requires Valid()
      modifies this
      ensures Valid() && frames == old(frames) + [f]
    {
      RoomsStep(frames, rooms, f);
      FollowsFrame(frames, f, grace, notify, edge, vacantStreak, house, log);
      rooms := rooms[f.room := f.occupied];
      frames := frames + [f];
      Determine(AnyOf(rooms));
    }

    // The second half of handle(): the streak and, when it decides, the house.
    method Determine(occupied: bool)
      modifies `vacantStreak, `house, `log
      ensures vacantStreak == if occupied then 0 else old(vacantStreak) + 1
      ensures var decided := occupied || old(vacantStreak) + 1 >= grace;
              && house == (if decided then Some(occupied) else old(house))
              && log == (if decided then Told(old(log), old(house), occupied, notify, edge) else old(log))
    {
      if occupied {
        vacantStreak := 0;
        SetHouse(true);
      } else {
        vacantStreak := vacantStreak + 1;
        if vacantStreak >= grace {
          SetHouse(false);
        }
      }
    }

    method SetHouse(home: bool)
      modifies `house, `log
      ensures house == Some(home)
      ensures log == Told(old(log), old(house), home, notify, edge)
    {
      if house == Some(home) { return; }
      var first := house.None?;
      house := Some(home);
      log := log + [HouseState(home)];
      if !first {
        log := log + [HouseEvent(home)];
        if notify { log := log + [Notified(home)]; }
        if edge { log := log + [OnEdge(home)]; }
      }
    }
  }
}
