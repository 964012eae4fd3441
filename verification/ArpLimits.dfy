// Where the device blocker promises less than it seems to: entries left poisoned by a
// device or a gateway that moves, and a transport that raises.
module ArpLimits {
  import opened Prelude
  import opened PyDict
  import opened Text
  import opened ArpTarget
  import opened ArpBlocking
  import opened ArpInvariant

  // -- Broadcast addresses ----------------------------------------------------------

  // The last address of the host's /24.
  predicate IsBroadcast(ip: string, lip: string) {
    ParseV4(ip).Some? && ParseV4(lip).Some? && ParseV4(ip).value == ParseV4(lip).value / 256 * 256 + 255
  }

  function BroadcastOf(lip: string): (ip: string) {
    var p := Split(lip, '.');
    if |p| != 4 then "" else Join(p[..3] + ["255"], '.')
  }

  lemma OctetLacksDot(s: string)
    requires ParseOctet(s).Some?
    ensures '.' !in s
  {
  }

  lemma BroadcastOfIs(lip: string)
    requires ParseV4(lip).Some?
    ensures IsBroadcast(BroadcastOf(lip), lip)
  {
    var p := Split(lip, '.');
    var q := p[..3] + ["255"];
    OctetLacksDot(p[0]);
    OctetLacksDot(p[1]);
    OctetLacksDot(p[2]);
    SplitJoin(q, '.');
    assert ParseOctet("255") == Some(255);
  }

  predicate LastIsRefused(a: nat) {
    var b := a / 256 * 256 + 255;
    !IsPrivate(b) || IsRefusedRange(b) || a == b
  }

  lemma LastOfNet(a: nat)
    ensures (a / 256 * 256 + 255) / 256 == a / 256
  {
  }

  lemma BroadcastPasses(lip: string)
    requires ParseV4(lip).Some? && !LastIsRefused(ParseV4(lip).value)
    ensures CheckAddress(BroadcastOf(lip), lip, []).Ok?
  {
    BroadcastOfIs(lip);
    LastOfNet(ParseV4(lip).value);
    AddressCheckedExactly(BroadcastOf(lip), lip, []);
  }

  lemma BroadcastFails(ip: string, lip: string, denied: seq<string>)
    requires IsBroadcast(ip, lip) && LastIsRefused(ParseV4(lip).value)
    ensures CheckAddress(ip, lip, denied).Err?
  {
    AddressCheckedExactly(ip, lip, denied);
  }

  // No guard refuses a broadcast address as such. No request has one accepted exactly
  // when the network around this host is not an ordinary private one, or this host has
  // that address itself.
  lemma NeverBroadcastExactly(lip: string)
    ensures (forall ip, denied :: IsBroadcast(ip, lip) ==> CheckAddress(ip, lip, denied).Err?)
            <==> ParseV4(lip).None? || LastIsRefused(ParseV4(lip).value)
  {
    if ParseV4(lip).Some? && !LastIsRefused(ParseV4(lip).value) {
      BroadcastOfIs(lip);
      BroadcastPasses(lip);
    } else {
      forall ip, denied | IsBroadcast(ip, lip) ensures CheckAddress(ip, lip, denied).Err? {
        BroadcastFails(ip, lip, denied);
      }
    }
  }

  // -- Bindings left poisoned -----------------------------------------------------

  // A packet is about one entry of the target's ARP cache: the one for that gateway.
  predicate IsAbout(p: Packet, mac: string, ip: string, gw: string) {
    p.mac == mac && p.ip == ip && p.gatewayIp == gw
  }

  function LastAbout(wire: seq<Packet>, mac: string, ip: string, gw: string): (p: Option<Packet>) {
    if |wire| == 0 then None
    else if IsAbout(wire[|wire| - 1], mac, ip, gw) then Some(wire[|wire| - 1])
    else LastAbout(wire[..|wire| - 1], mac, ip, gw)
  }

  // No gateway is left poisoned for a device at an address unless an active block says
  // so.
  ghost predicate NothingStranded(blocks: Dict<string, Block>, wire: seq<Packet>) {
    forall m, ip, gw :: NotStranded(blocks, wire, m, ip, gw)
  }

  ghost predicate NotStranded(blocks: Dict<string, Block>, wire: seq<Packet>, m: string, ip: string, gw: string) {
    var p := LastAbout(wire, m, ip, gw);
    p.Some? && !p.value.restore ==>
      Get(blocks, m).Some? && Get(blocks, m).value.ip == ip && Get(blocks, m).value.gatewayIp == gw
  }

  lemma LastAboutAppend(wire: seq<Packet>, p: Packet, m: string, ip: string, gw: string)
    ensures LastAbout(wire + [p], m, ip, gw)
            == if IsAbout(p, m, ip, gw) then Some(p) else LastAbout(wire, m, ip, gw)
  {
    assert (wire + [p])[..|wire|] == wire;
  }

  lemma {:induction false} LastToIsLastAbout(wire: seq<Packet>, m: string)
    requires LastTo(wire, m).Some?
    ensures LastAbout(wire, m, LastTo(wire, m).value.ip, LastTo(wire, m).value.gatewayIp) == LastTo(wire, m)
  {
    if wire[|wire| - 1].mac != m { LastToIsLastAbout(wire[..|wire| - 1], m); }
  }

  // The device is blocked at another address, or cut off from another gateway.
  predicate BlockedElsewhere(s: State, mac: string, ip: string, gw: string) {
    match Get(s.blocks, mac)
    case Some(b) => b.ip != ip || b.gatewayIp != gw
    case None => false
  }

  // Blocking again strands a binding exactly when the device was blocked with a
  // different one: the entry is overwritten and the old one never healed.
  lemma ReblockStrandsExactly(c: Config, s: State, t: Target, r: Request, now: real)
    requires Inv(c, s) && NothingStranded(s.blocks, s.wire)
    ensures var s' := AfterAccept(c, s, t, r, now);
            NothingStranded(s'.blocks, s'.wire)
            <==> !BlockedElsewhere(s, t.mac, t.ip, GatewayIpOf(r))
  {
    var s' := AfterAccept(c, s, t, r, now);
    var gw := GatewayIpOf(r);
    var b := Block(t.ip, gw, now + c.ttl);
    var p := Packet(t.ip, t.mac, gw, false, now);
    if BlockedElsewhere(s, t.mac, t.ip, gw) {
      var before := Get(s.blocks, t.mac).value;
      assert WireMatchesAt(s.blocks, s.wire, t.mac);
      LastToIsLastAbout(s.wire, t.mac);
      LastAboutAppend(s.wire, p, t.mac, before.ip, before.gatewayIp);
      GetSet(s.blocks, t.mac, b, t.mac);
      assert !NotStranded(s'.blocks, s'.wire, t.mac, before.ip, before.gatewayIp);
    } else {
      forall m, ip, g ensures NotStranded(s'.blocks, s'.wire, m, ip, g) {
        assert NotStranded(s.blocks, s.wire, m, ip, g);
        LastAboutAppend(s.wire, p, m, ip, g);
        GetSet(s.blocks, t.mac, b, m);
      }
    }
  }

  // Healing one block, or poisoning it again, strands nothing.
  lemma HealStrandsNothing(s: State, i: nat, now: real)
    requires Unique(s.blocks) && i < |s.blocks| && NothingStranded(s.blocks, s.wire)
    ensures NothingStranded(Healed(s, s.blocks[i], now).blocks, Healed(s, s.blocks[i], now).wire)
  {
    var e := s.blocks[i];
    var s' := Healed(s, e, now);
    GetAt(s.blocks, i);
    forall m, ip, g ensures NotStranded(s'.blocks, s'.wire, m, ip, g) {
      assert NotStranded(s.blocks, s.wire, m, ip, g);
      LastAboutAppend(s.wire, Packet(e.1.ip, e.0, e.1.gatewayIp, true, now), m, ip, g);
      GetDel(s.blocks, e.0, m);
    }
  }

  lemma ReassertStrandsNothing(s: State, i: nat, now: real)
    requires Unique(s.blocks) && i < |s.blocks| && NothingStranded(s.blocks, s.wire)
    ensures NothingStranded(s.blocks, Reasserted(s, s.blocks[i], now).wire)
  {
    var e := s.blocks[i];
    GetAt(s.blocks, i);
    forall m, ip, g ensures NotStranded(s.blocks, Reasserted(s, e, now).wire, m, ip, g) {
      assert NotStranded(s.blocks, s.wire, m, ip, g);
      LastAboutAppend(s.wire, Packet(e.1.ip, e.0, e.1.gatewayIp, false, now), m, ip, g);
    }
  }

  lemma {:induction false} TickStrandsNothing(s: State, now: real, k: nat)
    requires Unique(s.blocks) && k <= |s.blocks| && NothingStranded(s.blocks, s.wire)
    ensures NothingStranded(TickUpTo(s, now, k).blocks, TickUpTo(s, now, k).wire)
  {
    if k == 0 {
      TickUpToZero(s, now);
    } else {
      TickStrandsNothing(s, now, k - 1);
      OneTickStrandsNothing(s, now, k - 1);
    }
  }

  lemma OneTickStrandsNothing(s: State, now: real, k: nat)
    requires Unique(s.blocks) && k < |s.blocks|
    requires NothingStranded(TickUpTo(s, now, k).blocks, TickUpTo(s, now, k).wire)
    ensures NothingStranded(TickUpTo(s, now, k + 1).blocks, TickUpTo(s, now, k + 1).wire)
  {
    TickStep(s, now, k);
    var t, i := TickUpTo(s, now, k), |Alive(s.blocks[..k], now)|;
    if now >= s.blocks[k].1.expires { HealStrandsNothing(t, i, now); } else { ReassertStrandsNothing(t, i, now); }
  }

  lemma {:induction false} StopStrandsNothing(s: State, now: real, k: nat)
    requires Unique(s.blocks) && k <= |s.blocks| && NothingStranded(s.blocks, s.wire)
    ensures NothingStranded(StopUpTo(s, now, k).blocks, StopUpTo(s, now, k).wire)
  {
    if k == 0 {
      assert StopUpTo(s, now, 0) == s.(clock := now);
    } else {
      StopStrandsNothing(s, now, k - 1);
      StopStep(s, now, k - 1);
      HealStrandsNothing(StopUpTo(s, now, k - 1), 0, now);
    }
  }

  // The one call that can strand a binding: it is accepted, for a device blocked
  // elsewhere.
  predicate Moves(c: Config, s: State, op: Op) {
    op.DoBlock? &&
    match BlockOutcome(c, s, op.request)
    case Ok(t) => BlockedElsewhere(s, t.mac, t.ip, GatewayIpOf(op.request))
    case Err(_) => false
  }

  lemma StepStrandsExactly(c: Config, s: State, op: Op, now: real)
    requires Inv(c, s) && NothingStranded(s.blocks, s.wire)
    ensures NothingStranded(Apply(c, s, op, now).blocks, Apply(c, s, op, now).wire) <==> !Moves(c, s, op)
  {
    match op {
      case DoBlock(r) =>
        if BlockOutcome(c, s, r).Ok? { ReblockStrandsExactly(c, s, BlockOutcome(c, s, r).value, r, now); }
      case DoUnblock(mac) =>
        var m := NormMac(mac);
        if Get(s.blocks, m).Some? {
          GetIffHas(s.blocks, m);
          var i :| 0 <= i < |s.blocks| && s.blocks[i] == (m, Get(s.blocks, m).value);
          HealStrandsNothing(s, i, now);
        }
      case DoTick => TickStrandsAll(s, now);
      case DoLoop => TickStrandsAll(s, now);
      case DoStopCancel =>
      case DoStopRestore =>
        StopStrandsNothing(s, now, |s.blocks|);
        StopUpToAll(s, now);
    }
  }

  lemma TickStrandsAll(s: State, now: real)
    requires Unique(s.blocks) && NothingStranded(s.blocks, s.wire)
    ensures NothingStranded(AfterTick(s, now).blocks, AfterTick(s, now).wire)
  {
    TickStrandsNothing(s, now, |s.blocks|);
    TickUpToAll(s, now);
  }

  lemma {:induction false} NothingStrandedUpTo(c: Config, start: real, ops: seq<(Op, real)>, n: nat)
    requires ValidConfig(c) && Monotonic(start, ops) && n <= |ops|
    requires forall m | 0 <= m < n :: !Moves(c, Run(c, start, ops[..m]), ops[m].0)
    ensures NothingStranded(Run(c, start, ops[..n]).blocks, Run(c, start, ops[..n]).wire)
  {
    if n > 0 {
      NothingStrandedUpTo(c, start, ops, n - 1);
      RunOneMore(c, start, ops, n - 1);
      StepStrandsExactly(c, Run(c, start, ops[..n - 1]), ops[n - 1].0, ops[n - 1].1);
    }
  }

  lemma RunOneMore(c: Config, start: real, ops: seq<(Op, real)>, n: nat)
    requires ValidConfig(c) && Monotonic(start, ops) && n < |ops|
    ensures Run(c, start, ops[..n + 1]) == Apply(c, Run(c, start, ops[..n]), ops[n].0, ops[n].1)
    ensures Inv(c, Run(c, start, ops[..n]))
  {
    assert ops[..n + 1][..n] == ops[..n] && ops[..n + 1][n] == ops[n];
    RunKeepsInv(c, start, ops[..n]);
  }

  // A run never strands a binding exactly when none of its calls moves a blocked
  // device to another address or gateway.
  lemma StrandsNothingExactly(c: Config, start: real, ops: seq<(Op, real)>)
    requires ValidConfig(c) && Monotonic(start, ops)
    ensures (forall n | 0 <= n <= |ops| ::
               NothingStranded(Run(c, start, ops[..n]).blocks, Run(c, start, ops[..n]).wire))
            <==> (forall n | 0 <= n < |ops| :: !Moves(c, Run(c, start, ops[..n]), ops[n].0))
  {
    if forall n | 0 <= n <= |ops| :: NothingStranded(Run(c, start, ops[..n]).blocks, Run(c, start, ops[..n]).wire) {
      forall n | 0 <= n < |ops| ensures !Moves(c, Run(c, start, ops[..n]), ops[n].0) {
        RunOneMore(c, start, ops, n);
        StepStrandsExactly(c, Run(c, start, ops[..n]), ops[n].0, ops[n].1);
      }
    }
    if forall n | 0 <= n < |ops| :: !Moves(c, Run(c, start, ops[..n]), ops[n].0) {
      forall n | 0 <= n <= |ops|
        ensures NothingStranded(Run(c, start, ops[..n]).blocks, Run(c, start, ops[..n]).wire)
      {
        NothingStrandedUpTo(c, start, ops, n);
      }
    }
  }

  // -- A transport that raises -----------------------------------------------------

  // The tick pops a block before it sends, so a transport that raises at the
  // k-th packet ends the cycle with that block gone and unhealed.
  function TickRaisedAt(s: State, now: real, k: nat): State
    requires k < |s.blocks|
  {
    var t, e := TickUpTo(s, now, k), s.blocks[k];
    if now >= e.1.expires then t.(blocks := Del(t.blocks, e.0)) else t
  }

  // Such a cycle breaks the wire property exactly when the packet that failed
  // was a corrective one.
  lemma TickRaisedBreaksExactly(c: Config, s: State, now: real, k: nat)
    requires Inv(c, s) && s.clock <= now && k < |s.blocks|
    ensures WireMatches(TickRaisedAt(s, now, k).blocks, TickRaisedAt(s, now, k).wire)
            <==> now < s.blocks[k].1.expires
  {
    TickUpToKeepsInv(c, s, now, k);
    TickStep(s, now, k);
    var t, e := TickUpTo(s, now, k), s.blocks[k];
    if now >= e.1.expires {
      GetAt(t.blocks, |Alive(s.blocks[..k], now)|);
      GetDel(t.blocks, e.0, e.0);
      assert WireMatchesAt(t.blocks, t.wire, e.0);
      assert !WireMatchesAt(Del(t.blocks, e.0), t.wire, e.0);
    }
  }

  // A block call stores its entry before it sends and starts the loop after.
  function BlockRaised(c: Config, s: State, t: Target, gw: string, now: real): State {
    s.(blocks := Set(s.blocks, t.mac, Block(t.ip, gw, now + c.ttl)), clock := now)
  }

  // When the transport raises, the wire still matches exactly when the same poison was
  // already in force.
  lemma BlockRaisedBreaksExactly(c: Config, s: State, t: Target, gw: string, now: real)
    requires Inv(c, s)
    ensures WireMatches(BlockRaised(c, s, t, gw, now).blocks, BlockRaised(c, s, t, gw, now).wire)
            <==> Get(s.blocks, t.mac).Some? && Get(s.blocks, t.mac).value.ip == t.ip
                 && Get(s.blocks, t.mac).value.gatewayIp == gw
  {
    var b := Block(t.ip, gw, now + c.ttl);
    var after := Set(s.blocks, t.mac, b);
    GetSet(s.blocks, t.mac, b, t.mac);
    assert WireMatchesAt(s.blocks, s.wire, t.mac);
    if Get(s.blocks, t.mac).Some? && Get(s.blocks, t.mac).value.ip == t.ip
       && Get(s.blocks, t.mac).value.gatewayIp == gw {
      forall m ensures WireMatchesAt(after, s.wire, m) {
        GetSet(s.blocks, t.mac, b, m);
        assert WireMatchesAt(s.blocks, s.wire, m);
      }
    } else {
      assert !WireMatchesAt(after, s.wire, t.mac);
    }
  }

  // The loop, however late it wakes, leaves every block as it is.
  ghost predicate NeverExpires(s: State) {
    forall later :: AfterLoop(s, later).blocks == s.blocks
  }

  lemma LiveLoopExpires(s: State, e: (string, Block))
    requires s.task == Live && e in s.blocks
    ensures !NeverExpires(s)
  {
    AliveOnly(s.blocks, e.1.expires);
    assert AfterLoop(s, e.1.expires).blocks == Alive(s.blocks, e.1.expires);
    assert e !in Alive(s.blocks, e.1.expires);
  }

  lemma SetHas(d: Dict<string, Block>, mac: string, b: Block)
    requires Unique(d)
    ensures (mac, b) in Set(d, mac, b)
  {
    SetShape(d, mac, b);
    GetSet(d, mac, b, mac);
    GetIffHas(Set(d, mac, b), mac);
  }

  // And nothing expires the block it left exactly when the loop was not running before
  // the call.
  lemma BlockRaisedUnwatchedExactly(c: Config, s: State, t: Target, gw: string, now: real)
    requires Unique(s.blocks)
    ensures NeverExpires(BlockRaised(c, s, t, gw, now)) <==> s.task != Live
  {
    var s', b := BlockRaised(c, s, t, gw, now), Block(t.ip, gw, now + c.ttl);
    if s.task == Live {
      SetHas(s.blocks, t.mac, b);
      LiveLoopExpires(s', (t.mac, b));
    }
  }

  // unblock pops the entry before it sends, so when the transport raises the wire
  // still matches exactly when there was nothing to unblock.
  lemma UnblockRaisedBreaksExactly(c: Config, s: State, m: string)
    requires Inv(c, s)
    ensures WireMatches(Del(s.blocks, m), s.wire) <==> Get(s.blocks, m).None?
  {
    GetIffHas(s.blocks, m);
    DelIsFilter(s.blocks, m);
    GetDel(s.blocks, m, m);
    assert WireMatchesAt(s.blocks, s.wire, m);
    if Get(s.blocks, m).Some? { assert !WireMatchesAt(Del(s.blocks, m), s.wire, m); }
  }

  // stop() raising at its k-th packet has popped that block too.
  function StopRaisedAt(s: State, now: real, k: nat): State
    requires k < |s.blocks|
  {
    var t := StopUpTo(s, now, k);
    t.(blocks := Del(t.blocks, s.blocks[k].0), task := NoTask)
  }

  // It leaves poisoned exactly the devices from the k-th on, with no loop to heal
  // them: everybody ends on a restore only when no packet fails.
  lemma StopRaisedLeavesExactly(c: Config, s: State, now: real, k: nat, m: string)
    requires Inv(c, s) && s.clock <= now && k < |s.blocks|
    ensures var t := StopRaisedAt(s, now, k);
            && t.task == NoTask
            && (LastTo(t.wire, m).Some? && !LastTo(t.wire, m).value.restore
                <==> exists i | k <= i < |s.blocks| :: s.blocks[i].0 == m)
  {
    StopUpToKeepsInv(c, s, now, k);
    var t := StopUpTo(s, now, k);
    assert WireMatchesAt(t.blocks, t.wire, m);
    GetIffHas(t.blocks, m);
    forall i | k <= i < |s.blocks| ensures t.blocks[i - k] == s.blocks[i] {}
    assert Has(t.blocks, m) <==> exists i | k <= i < |s.blocks| :: s.blocks[i].0 == m by {
      if Has(t.blocks, m) {
        var j :| 0 <= j < |t.blocks| && t.blocks[j].0 == m;
        assert s.blocks[k + j].0 == m;
      }
      if i :| k <= i < |s.blocks| && s.blocks[i].0 == m { assert t.blocks[i - k].0 == m; }
    }
  }
}
