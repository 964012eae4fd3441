// What every run of the device blocker leaves on the wire.
module ArpRuns {
  import opened Prelude
  import opened PyDict
  import opened Text
  import opened ArpTarget
  import opened ArpBlocking
  import opened ArpInvariant

  // In every run, the last packet sent to a MAC is a poison exactly when that MAC
  // is blocked, carrying the block's address and gateway; and every restore
  // repeats the address and gateway of the poison it heals.
  lemma WireMatchesBlocks(c: Config, start: real, ops: seq<(Op, real)>, m: string)
    requires ValidConfig(c) && Monotonic(start, ops)
    ensures var s := Run(c, start, ops);
            var last := LastTo(s.wire, m);
            && (last.Some? && !last.value.restore <==> Get(s.blocks, m).Some?)
            && (Get(s.blocks, m).Some? ==> Poisons(last.value, Get(s.blocks, m).value))
            && RestoresHeal(s.wire)
  {
    RunKeepsInv(c, start, ops);
    assert WireMatchesAt(Run(c, start, ops).blocks, Run(c, start, ops).wire, m);
  }

  // Shutdown leaves nobody cut off: whatever ran before, after stop() the last
  // packet to every MAC that was ever sent one is a restore.
  lemma StopHealsEveryone(c: Config, start: real, ops: seq<(Op, real)>, i: nat)
    requires ValidConfig(c) && Monotonic(start, ops)
    requires |ops| > 0 && ops[|ops| - 1].0 == DoStopRestore
    requires i < |Run(c, start, ops).wire|
    ensures var s := Run(c, start, ops);
            s.blocks == [] && LastTo(s.wire, s.wire[i].mac).Some? && LastTo(s.wire, s.wire[i].mac).value.restore
  {
    var s := Run(c, start, ops);
    RunKeepsInv(c, start, ops);
    assert WireMatchesAt(s.blocks, s.wire, s.wire[i].mac);
    LastToSome(s.wire, i);
  }

  lemma {:induction false} LastToSome(wire: seq<Packet>, i: nat)
    requires i < |wire|
    ensures LastTo(wire, wire[i].mac).Some?
  {
    if i < |wire| - 1 { LastToSome(wire[..|wire| - 1], i); }
  }

  // Every poison a run sends is aimed by an accepted call: one that named this
  // MAC, whose address was judged safe, no later than the packet and less than
  // the time to live before it.
  lemma EveryPoisonAuthorised(c: Config, start: real, ops: seq<(Op, real)>, i: nat)
    requires ValidConfig(c) && Monotonic(start, ops)
    requires i < |Run(c, start, ops).wire| && !Run(c, start, ops).wire[i].restore
    ensures var s := Run(c, start, ops);
            exists k | 0 <= k < |s.grants| ::
              && Covers(c, s.grants[k], s.wire[i])
              && SafeTarget(s.grants[k].request, Target(s.wire[i].mac, s.wire[i].ip))
              && s.wire[i].gatewayIp == GatewayIpOf(s.grants[k].request)
  {
    var s := Run(c, start, ops);
    RunKeepsInv(c, start, ops);
    assert GrantedPoison(c, s.grants, s.wire[i]);
    var k :| 0 <= k < |s.grants| && Covers(c, s.grants[k], s.wire[i]);
    RunGrantsAccepted(c, start, ops);
    assert GrantAccepted(s.grants[k]);
    AcceptedIsSafe(s.grants[k].request, Target(s.wire[i].mac, s.wire[i].ip));
  }

  // Never more than max_blocks at once, and one tick past a block's deadline it
  // is gone.
  lemma BoundedAndExpiring(c: Config, start: real, ops: seq<(Op, real)>, now: real)
    requires ValidConfig(c) && Monotonic(start, ops)
    requires Run(c, start, ops).clock <= now
    ensures |Run(c, start, ops).blocks| <= c.maxBlocks
    ensures forall e | e in Apply(c, Run(c, start, ops), DoTick, now).blocks :: now < e.1.expires <= now + c.ttl
  {
    var s := Run(c, start, ops);
    RunKeepsInv(c, start, ops);
    TickKeepsInv(c, s, now);
    var t := AfterTick(s, now);
    forall e | e in t.blocks ensures e.1.expires <= now + c.ttl {
      var i :| 0 <= i < |t.blocks| && t.blocks[i] == e;
      assert BlockGranted(c, t, t.blocks[i]);
      var k :| 0 <= k < |t.grants| && GrantOf(c, t.grants[k], t.blocks[i], t.clock);
    }
  }

  // -- The loop that expires blocks is running ------------------------------

  // Between stop()'s cancellation of the loop and its restoring of the blocks.
  ghost predicate Stopping(ops: seq<(Op, real)>) {
    |ops| > 0 &&
    var last := ops[|ops| - 1].0;
    last.DoStopCancel? || (!last.DoStopRestore? && Stopping(ops[..|ops| - 1]))
  }

  // Outside shutdown there is never a block without a live loop to expire it.
  lemma {:induction false} BlocksAreWatched(c: Config, start: real, ops: seq<(Op, real)>)
    requires !Stopping(ops)
    ensures |Run(c, start, ops).blocks| > 0 ==> Run(c, start, ops).task == Live
  {
    if |ops| > 0 {
      var front, last := ops[..|ops| - 1], ops[|ops| - 1];
      if !Stopping(front) {
        BlocksAreWatched(c, start, front);
      }
      assert |Alive([], last.1)| == 0;
    }
  }

  // When the loop runs: an accepted call starts it, it ends when it finds nothing blocked,
  // and shutdown ends it.
  lemma LoopRunsExactly(c: Config, s: State, op: Op, now: real)
    ensures Apply(c, s, op, now).task == Live <==>
              match op
              case DoBlock(r) => s.task == Live || BlockOutcome(c, s, r).Ok?
              case DoUnblock(_) => s.task == Live
              case DoTick => s.task == Live
              case DoLoop => s.task == Live && s.blocks != []
              case DoStopCancel => false
              case DoStopRestore => false
    ensures s.task != Live ==> Apply(c, s, DoLoop, now) == s.(clock := now)
  {
  }

  // -- The audit trail ---------------------------------------------------------

  // An event tells of one packet: whom it was sent to, and whether it healed.
  ghost predicate Tells(e: Event, p: Packet) {
    e.mac == p.mac && e.ip == p.ip && (p.restore <==> e.kind == Unblock || e.kind == Expire || e.kind == Restore)
  }

  ghost predicate TellsAll(history: seq<Event>, wire: seq<Packet>) {
    |history| == |wire| && forall i {:trigger history[i]} | 0 <= i < |wire| :: Tells(history[i], wire[i])
  }

  // What a step adds to the trail, and the packets it is about.
  ghost predicate Adds(s: State, s': State, events: seq<Event>, packets: seq<Packet>) {
    s'.history == s.history + events && s'.wire == s.wire + packets && TellsAll(events, packets)
  }

  lemma {:induction false} TickTells(d: Dict<string, Block>, now: real)
    ensures TellsAll(TickEvents(d, now), TickPackets(d, now))
    ensures forall i | 0 <= i < |d| ::
              && TickEvents(d, now)[i].mac == d[i].0
              && TickEvents(d, now)[i].kind == if d[i].1.expires <= now then Expire else Reassert
  {
    if |d| > 0 { TickTells(d[1..], now); }
  }

  lemma {:induction false} StopTells(d: Dict<string, Block>, now: real)
    ensures TellsAll(StopEvents(d), StopPackets(d, now))
    ensures forall i | 0 <= i < |d| :: StopEvents(d)[i].mac == d[i].0 && StopEvents(d)[i].kind == Restore
  {
    if |d| > 0 { StopTells(d[1..], now); }
  }

  // Which events a step may add: each kind comes from its own step. A block call adds
  // one when it is accepted, an unblock one when the device was blocked, a tick one for
  // each block, Expire for those it drops and Reassert for those it keeps, and stop one
  // for each block.
  ghost predicate OwnEvents(c: Config, s: State, op: Op, now: real, events: seq<Event>) {
    match op
    case DoBlock(r) =>
      (match ValidateTarget(r)
       case Ok(t) =>
         if Has(s.blocks, t.mac) || |s.blocks| < c.maxBlocks then events == [Event(BlockEvent, t.mac, t.ip)]
         else events == []
       case Err(_) => events == [])
    case DoUnblock(m) =>
      if Has(s.blocks, NormMac(m)) then |events| == 1 && events[0].kind == Unblock && events[0].mac == NormMac(m)
      else events == []
    case DoTick => TickOwn(s, now, events)
    case DoLoop => if s.task == Live then TickOwn(s, now, events) else events == []
    case DoStopCancel => events == []
    case DoStopRestore =>
      |events| == |s.blocks| && forall i | 0 <= i < |events| ::
        events[i].kind == Restore && events[i].mac == s.blocks[i].0
  }

  ghost predicate TickOwn(s: State, now: real, events: seq<Event>) {
    |events| == |s.blocks| && forall i | 0 <= i < |events| ::
      && events[i].mac == s.blocks[i].0
      && events[i].kind == if s.blocks[i].1.expires <= now then Expire else Reassert
  }

  lemma StepTells(c: Config, s: State, op: Op, now: real) returns (events: seq<Event>, packets: seq<Packet>)
    ensures Adds(s, Apply(c, s, op, now), events, packets)
    ensures OwnEvents(c, s, op, now, events)
  {
    events, packets := [], [];
    match op {
      case DoBlock(r) =>
        if BlockOutcome(c, s, r).Ok? {
          var t := BlockOutcome(c, s, r).value;
          events, packets := [Event(BlockEvent, t.mac, t.ip)], [Packet(t.ip, t.mac, GatewayIpOf(r), false, now)];
        }
        if ValidateTarget(r).Ok? { GetIffHas(s.blocks, ValidateTarget(r).value.mac); }
      case DoUnblock(mac) =>
        var m := NormMac(mac);
        GetIffHas(s.blocks, m);
        if Get(s.blocks, m).Some? {
          var b := Get(s.blocks, m).value;
          events, packets := [Event(Unblock, m, b.ip)], [Packet(b.ip, m, b.gatewayIp, true, now)];
        }
      case DoTick => events, packets := TickStepTells(s, now);
      case DoLoop => if s.task == Live && |s.blocks| > 0 { events, packets := TickStepTells(s, now); }
      case DoStopCancel =>
      case DoStopRestore =>
        StopTells(s.blocks, now);
        events, packets := StopEvents(s.blocks), StopPackets(s.blocks, now);
    }
  }

  lemma TickStepTells(s: State, now: real) returns (events: seq<Event>, packets: seq<Packet>)
    ensures Adds(s, AfterTick(s, now), events, packets) && TickOwn(s, now, events)
  {
    TickTells(s.blocks, now);
    events, packets := TickEvents(s.blocks, now), TickPackets(s.blocks, now);
  }

  // In every run the trail has one event for each packet sent, in order, naming its
  // device and address, and of a healing kind exactly when the packet heals.
  lemma {:induction false} HistoryTellsWire(c: Config, start: real, ops: seq<(Op, real)>)
    ensures TellsAll(Run(c, start, ops).history, Run(c, start, ops).wire)
  {
    if |ops| > 0 {
      var s := Run(c, start, ops[..|ops| - 1]);
      HistoryTellsWire(c, start, ops[..|ops| - 1]);
      var events, packets := StepTells(c, s, ops[|ops| - 1].0, ops[|ops| - 1].1);
    }
  }

  // -- How long a block lasts ------------------------------------------------------

  // A call is accepted exactly for a safe target with a place left, or one blocked
  // already.
  lemma BlockAcceptedExactly(c: Config, s: State, r: Request, t: Target)
    ensures BlockOutcome(c, s, r) == Ok(t) <==>
              SafeTarget(r, t) && (Has(s.blocks, t.mac) || |s.blocks| < c.maxBlocks)
  {
    AcceptedExactly(r, t);
    GetIffHas(s.blocks, t.mac);
  }

  lemma AcceptInForce(c: Config, s: State, r: Request, t: Target, now: real, m: string)
    requires r.gateway.Some?
    ensures var s' := AfterAccept(c, s, t, r, now);
            InForce(c, s', r, t, now) && (m != t.mac ==> Get(s'.blocks, m) == Get(s.blocks, m))
  {
    var b := Block(t.ip, GatewayIpOf(r), now + c.ttl);
    GetSet(s.blocks, t.mac, b, m);
    GetSet(s.blocks, t.mac, b, t.mac);
  }

  // An accepted call blocks its device, at its address and for its gateway, and touches
  // no other.
  lemma AcceptedBlocks(c: Config, s: State, r: Request, t: Target, now: real, m: string)
    ensures var s' := Apply(c, s, DoBlock(r), now);
            && (BlockOutcome(c, s, r) == Ok(t) ==> InForce(c, s', r, t, now))
            && (BlockOutcome(c, s, r) == Ok(t) && m != t.mac ==> Get(s'.blocks, m) == Get(s.blocks, m))
            && (BlockOutcome(c, s, r).Err? ==> s'.blocks == s.blocks && s'.wire == s.wire)
  {
    if r.gateway.Some? { AcceptInForce(c, s, r, t, now, m); }
  }

  ghost predicate InForce(c: Config, s: State, r: Request, t: Target, now: real) {
    var b := Get(s.blocks, t.mac);
    && b.Some? && b.value.ip == t.ip && r.gateway.Some? && b.value.gatewayIp == Strip(r.gateway.value.ip)
    && b.value.expires == now + c.ttl
    && |s.wire| > 0 && s.wire[|s.wire| - 1] == Packet(t.ip, t.mac, b.value.gatewayIp, false, now)
  }

  // And a tick keeps it blocked exactly while less than the time to live has passed.
  lemma BlockLastsExactly(c: Config, s: State, r: Request, t: Target, now: real, later: real)
    requires Unique(s.blocks) && InForce(c, s, r, t, now)
    ensures Has(Apply(c, s, DoTick, later).blocks, t.mac) <==> later < now + c.ttl
  {
    AliveHasExactly(s.blocks, t.mac, later);
  }

  lemma AliveHasExactly(d: Dict<string, Block>, m: string, now: real)
    requires Unique(d)
    ensures Has(Alive(d, now), m) <==> Get(d, m).Some? && now < Get(d, m).value.expires
  {
    AliveOnly(d, now);
    GetIffHas(d, m);
    if Has(Alive(d, now), m) {
      var i :| 0 <= i < |Alive(d, now)| && Alive(d, now)[i].0 == m;
      var e := Alive(d, now)[i];
      assert e in d;
      var j :| 0 <= j < |d| && d[j] == e;
      GetAt(d, j);
    }
    if Get(d, m).Some? && now < Get(d, m).value.expires {
      assert (m, Get(d, m).value) in Alive(d, now);
    }
  }

  // An unblock takes out its device and no other.
  lemma UnblockRemovesExactly(s: State, mac: string, now: real, m: string)
    requires Unique(s.blocks)
    ensures Get(AfterUnblock(s, mac, now).blocks, m) == if m == NormMac(mac) then None else Get(s.blocks, m)
  {
    GetDel(s.blocks, NormMac(mac), m);
  }
}
