// Every operation of the device blocker, and so every run, keeps the invariant that
// ties the wire to the blocks and both to accepted calls.
module ArpInvariant {
  import opened Prelude
  import opened PyDict
  import opened ArpTarget
  import opened ArpBlocking

  // -- Lemmas about one packet ---------------------------------------------

  lemma LastToAppend(wire: seq<Packet>, p: Packet, m: string)
    ensures LastTo(wire + [p], m) == if p.mac == m then Some(p) else LastTo(wire, m)
  {
    assert (wire + [p])[..|wire|] == wire;
  }

  lemma HealAppend(wire: seq<Packet>, p: Packet)
    requires RestoresHeal(wire)
    requires p.restore ==>
               var q := LastTo(wire, p.mac);
               q.Some? && !q.value.restore && q.value.ip == p.ip && q.value.gatewayIp == p.gatewayIp
    ensures RestoresHeal(wire + [p])
  {
    var w := wire + [p];
    forall i | 0 <= i < |w| && w[i].restore ensures HealsAt(w, i) {
      if i < |wire| {
        assert HealsAt(wire, i);
        assert w[..i] == wire[..i];
      } else {
        assert w[..i] == wire;
      }
    }
  }

  // Sending one packet for entry e of the dictionary while the blocks change from
  // before to after: the wire keeps matching when only e's MAC is affected.
  lemma SendKeepsMatch(before: Dict<string, Block>, after: Dict<string, Block>, wire: seq<Packet>, p: Packet)
    requires WireMatches(before, wire)
    requires forall m | m != p.mac :: Get(after, m) == Get(before, m)
    requires match Get(after, p.mac)
             case Some(b) => Poisons(p, b)
             case None => p.restore
    ensures WireMatches(after, wire + [p])
  {
    forall m ensures WireMatchesAt(after, wire + [p], m) {
      LastToAppend(wire, p, m);
      assert WireMatchesAt(before, wire, m);
    }
  }

  lemma GrantsKept(c: Config, s: State, g: Grant, now: real)
    requires BlocksGranted(c, s) && PoisonsGranted(c, s.grants, s.wire) && s.clock <= now
    ensures BlocksGranted(c, s.(grants := s.grants + [g], clock := now))
    ensures PoisonsGranted(c, s.grants + [g], s.wire)
  {
    var s' := s.(grants := s.grants + [g], clock := now);
    forall i | 0 <= i < |s.blocks| ensures BlockGranted(c, s', s'.blocks[i]) {
      assert BlockGranted(c, s, s.blocks[i]);
      var k :| 0 <= k < |s.grants| && GrantOf(c, s.grants[k], s.blocks[i], s.clock);
      assert GrantOf(c, s'.grants[k], s'.blocks[i], now);
    }
    forall i | 0 <= i < |s.wire| && !s.wire[i].restore ensures GrantedPoison(c, s'.grants, s.wire[i]) {
      assert GrantedPoison(c, s.grants, s.wire[i]);
      var k :| 0 <= k < |s.grants| && Covers(c, s.grants[k], s.wire[i]);
      assert Covers(c, s'.grants[k], s.wire[i]);
    }
  }

  // A block still in force covers a poison sent now.
  lemma BlockCovers(c: Config, s: State, i: nat, now: real)
    requires BlocksGranted(c, s) && s.clock <= now && i < |s.blocks| && now < s.blocks[i].1.expires
    ensures GrantedPoison(c, s.grants, Packet(s.blocks[i].1.ip, s.blocks[i].0, s.blocks[i].1.gatewayIp, false, now))
  {
    assert BlockGranted(c, s, s.blocks[i]);
    var k :| 0 <= k < |s.grants| && GrantOf(c, s.grants[k], s.blocks[i], s.clock);
    assert Covers(c, s.grants[k], Packet(s.blocks[i].1.ip, s.blocks[i].0, s.blocks[i].1.gatewayIp, false, now));
  }

  lemma SendKeepsGranted(c: Config, grants: seq<Grant>, wire: seq<Packet>, p: Packet)
    requires PoisonsGranted(c, grants, wire)
    requires !p.restore ==> GrantedPoison(c, grants, p)
    ensures PoisonsGranted(c, grants, wire + [p])
  {
    var w := wire + [p];
    forall i | 0 <= i < |w| && !w[i].restore ensures GrantedPoison(c, grants, w[i]) {
      if i < |wire| { assert w[i] == wire[i]; }
    }
  }

  // The blocks may shrink, and time may pass.
  lemma FewerBlocksGranted(c: Config, s: State, t: State)
    requires BlocksGranted(c, s)
    requires t.grants == s.grants && s.clock <= t.clock
    requires forall e | e in t.blocks :: e in s.blocks
    ensures BlocksGranted(c, t)
  {
    forall i | 0 <= i < |t.blocks| ensures BlockGranted(c, t, t.blocks[i]) {
      var e := t.blocks[i];
      assert e in s.blocks;
      var j :| 0 <= j < |s.blocks| && s.blocks[j] == e;
      assert BlockGranted(c, s, s.blocks[j]);
      var k :| 0 <= k < |s.grants| && GrantOf(c, s.grants[k], e, s.clock);
      assert GrantOf(c, t.grants[k], e, t.clock);
    }
  }

  // -- Each operation keeps the invariant ----------------------------------

  lemma AcceptedKeepsWire(c: Config, s: State, t: Target, gw: string, now: real)
    requires Inv(c, s)
    ensures var b := Block(t.ip, gw, now + c.ttl);
            var p := Packet(t.ip, t.mac, gw, false, now);
            && WireMatches(Set(s.blocks, t.mac, b), s.wire + [p])
            && RestoresHeal(s.wire + [p])
  {
    var b := Block(t.ip, gw, now + c.ttl);
    var p := Packet(t.ip, t.mac, gw, false, now);
    var after := Set(s.blocks, t.mac, b);
    forall m ensures Get(after, m) == if m == t.mac then Some(b) else Get(s.blocks, m) {
      GetSet(s.blocks, t.mac, b, m);
    }
    SendKeepsMatch(s.blocks, after, s.wire, p);
    HealAppend(s.wire, p);
  }

  lemma AcceptedKeepsGrants(c: Config, s: State, g: Grant, b: Block)
    requires ValidConfig(c) && Unique(s.blocks) && BlocksGranted(c, s) && PoisonsGranted(c, s.grants, s.wire)
    requires s.clock <= g.at && b == Block(g.ip, g.gatewayIp, g.at + c.ttl)
    ensures BlocksGranted(c, s.(blocks := Set(s.blocks, g.mac, b), grants := s.grants + [g], clock := g.at))
    ensures PoisonsGranted(c, s.grants + [g], s.wire + [Packet(g.ip, g.mac, g.gatewayIp, false, g.at)])
  {
    var s1 := s.(grants := s.grants + [g], clock := g.at);
    var s2 := s1.(blocks := Set(s.blocks, g.mac, b));
    var p := Packet(g.ip, g.mac, g.gatewayIp, false, g.at);
    GrantsKept(c, s, g, g.at);
    assert s1.grants[|s.grants|] == g && Covers(c, g, p) && GrantOf(c, g, (g.mac, b), g.at);
    SendKeepsGranted(c, s1.grants, s.wire, p);
    SetShape(s.blocks, g.mac, b);
    forall i | 0 <= i < |s2.blocks| ensures BlockGranted(c, s2, s2.blocks[i]) {
      if s2.blocks[i] == (g.mac, b) {
        assert GrantOf(c, s2.grants[|s.grants|], s2.blocks[i], g.at);
      } else {
        assert s2.blocks[i] == s.blocks[i];
        assert BlockGranted(c, s1, s1.blocks[i]);
        var k :| 0 <= k < |s1.grants| && GrantOf(c, s1.grants[k], s1.blocks[i], g.at);
        assert GrantOf(c, s2.grants[k], s2.blocks[i], g.at);
      }
    }
  }

  lemma BlockKeepsInv(c: Config, s: State, r: Request, now: real)
    requires ValidConfig(c) && Inv(c, s) && s.clock <= now
    ensures Inv(c, AfterBlock(c, s, r, now))
  {
    match BlockOutcome(c, s, r) {
      case Err(_) => ClockKeepsInv(c, s, now);
      case Ok(t) => AcceptKeepsInv(c, s, t, r, now);
    }
  }

  lemma AcceptKeepsInv(c: Config, s: State, t: Target, r: Request, now: real)
    requires ValidConfig(c) && Inv(c, s) && s.clock <= now
    requires Get(s.blocks, t.mac).Some? || |s.blocks| < c.maxBlocks
    ensures Inv(c, AfterAccept(c, s, t, r, now))
  {
    var gw := GatewayIpOf(r);
    var b := Block(t.ip, gw, now + c.ttl);
    var g := Grant(t.mac, t.ip, gw, now, r);
    AcceptedKeepsWire(c, s, t, gw, now);
    AcceptedKeepsGrants(c, s, g, b);
    SetShape(s.blocks, t.mac, b);
    GetIffHas(s.blocks, t.mac);
    var s' := AfterAccept(c, s, t, r, now);
    BlocksFree(c, s.(blocks := Set(s.blocks, g.mac, b), grants := s.grants + [g], clock := now), s');
  }

  // Whether the blocks are granted does not depend on the wire, the audit trail
  // or the loop.
  lemma BlocksFree(c: Config, s: State, t: State)
    requires BlocksGranted(c, s)
    requires s.blocks == t.blocks && s.grants == t.grants && s.clock == t.clock
    ensures BlocksGranted(c, t)
  {
    FewerBlocksGranted(c, s, t);
  }

  lemma ClockKeepsInv(c: Config, s: State, now: real)
    requires Inv(c, s) && s.clock <= now
    ensures Inv(c, s.(clock := now))
  {
    FewerBlocksGranted(c, s, s.(clock := now));
  }

  // Undoing one block: pop it and send its corrective packet.
  function Healed(s: State, e: (string, Block), now: real): State {
    s.(blocks := Del(s.blocks, e.0), wire := s.wire + [Packet(e.1.ip, e.0, e.1.gatewayIp, true, now)], clock := now)
  }

  lemma HealKeepsWire(c: Config, s: State, i: nat, now: real)
    requires Inv(c, s) && i < |s.blocks|
    ensures var s' := Healed(s, s.blocks[i], now);
            WireMatches(s'.blocks, s'.wire) && RestoresHeal(s'.wire)
  {
    var e := s.blocks[i];
    var p := Packet(e.1.ip, e.0, e.1.gatewayIp, true, now);
    var after := Del(s.blocks, e.0);
    GetAt(s.blocks, i);
    assert WireMatchesAt(s.blocks, s.wire, e.0);
    forall m ensures Get(after, m) == if m == e.0 then None else Get(s.blocks, m) {
      GetDel(s.blocks, e.0, m);
    }
    SendKeepsMatch(s.blocks, after, s.wire, p);
    HealAppend(s.wire, p);
  }

  lemma HealKeepsInv(c: Config, s: State, i: nat, now: real)
    requires Inv(c, s) && s.clock <= now && i < |s.blocks|
    ensures Inv(c, Healed(s, s.blocks[i], now))
  {
    var e := s.blocks[i];
    HealKeepsWire(c, s, i, now);
    SendKeepsGranted(c, s.grants, s.wire, Packet(e.1.ip, e.0, e.1.gatewayIp, true, now));
    DelIsFilter(s.blocks, e.0);
    DelKeepsOrder(s.blocks, e.0);
    FewerBlocksGranted(c, s, Healed(s, e, now));
  }

  // Re-asserting one block: send its poison again.
  function Reasserted(s: State, e: (string, Block), now: real): State {
    s.(wire := s.wire + [Packet(e.1.ip, e.0, e.1.gatewayIp, false, now)], clock := now)
  }

  lemma ReassertKeepsInv(c: Config, s: State, i: nat, now: real)
    requires Inv(c, s) && s.clock <= now && i < |s.blocks| && now < s.blocks[i].1.expires
    ensures Inv(c, Reasserted(s, s.blocks[i], now))
  {
    var e := s.blocks[i];
    var p := Packet(e.1.ip, e.0, e.1.gatewayIp, false, now);
    GetAt(s.blocks, i);
    SendKeepsMatch(s.blocks, s.blocks, s.wire, p);
    HealAppend(s.wire, p);
    BlockCovers(c, s, i, now);
    SendKeepsGranted(c, s.grants, s.wire, p);
    FewerBlocksGranted(c, s, Reasserted(s, e, now));
  }

  // The state of a tick after the first k of the blocks it found: the blocks it
  // has not reached are still there, behind the survivors.
  function TickUpTo(s: State, now: real, k: nat): State
    requires k <= |s.blocks|
  {
    s.(blocks := Alive(s.blocks[..k], now) + s.blocks[k..],
       wire := s.wire + TickPackets(s.blocks[..k], now),
       history := s.history + TickEvents(s.blocks[..k], now),
       clock := now)
  }

  lemma {:induction false} AliveAppend(d: Dict<string, Block>, e: (string, Block), now: real)
    ensures Alive(d + [e], now) == Alive(d, now) + (if now >= e.1.expires then [] else [e])
    ensures TickPackets(d + [e], now) == TickPackets(d, now) + [TickPacket(e, now)]
    ensures TickEvents(d + [e], now) == TickEvents(d, now) + [TickEvent(e, now)]
    ensures StopPackets(d + [e], now) == StopPackets(d, now) + [Packet(e.1.ip, e.0, e.1.gatewayIp, true, now)]
    ensures StopEvents(d + [e]) == StopEvents(d) + [Event(Restore, e.0, e.1.ip)]
  {
    if |d| == 0 {
      assert d + [e] == [e];
    } else {
      assert (d + [e])[1..] == d[1..] + [e];
      AliveAppend(d[1..], e, now);
    }
  }

  lemma {:induction false} AliveOnly(d: Dict<string, Block>, now: real)
    ensures forall e | e in Alive(d, now) :: e in d && now < e.1.expires
    ensures forall e | e in d && now < e.1.expires :: e in Alive(d, now)
  {
    if |d| > 0 { AliveOnly(d[1..], now); }
  }

  lemma {:induction false} AliveUnique(d: Dict<string, Block>, now: real)
    requires Unique(d)
    ensures Unique(Alive(d, now))
  {
    if |d| > 0 {
      AliveUnique(d[1..], now);
      AliveOnly(d[1..], now);
      var r := Alive(d[1..], now);
      forall j | 0 <= j < |r| ensures r[j].0 != d[0].0 {
        assert r[j] in d[1..];
        var q :| 0 <= q < |d[1..]| && d[1..][q] == r[j];
        assert d[q + 1] == r[j];
      }
    }
  }

  // One step of the tick's loop, seen on the state.
  lemma TickStep(s: State, now: real, k: nat)
    requires Unique(s.blocks) && k < |s.blocks|
    ensures var e, t := s.blocks[k], TickUpTo(s, now, k);
            && |Alive(s.blocks[..k], now)| < |t.blocks| && t.blocks[|Alive(s.blocks[..k], now)|] == e
            && Unique(t.blocks)
            && TickUpTo(s, now, k + 1).blocks == (if now >= e.1.expires then Del(t.blocks, e.0) else t.blocks)
            && TickUpTo(s, now, k + 1).wire == t.wire + [TickPacket(e, now)]
            && TickUpTo(s, now, k + 1).history == t.history + [TickEvent(e, now)]
  {
    var e := s.blocks[k];
    assert s.blocks[..k + 1] == s.blocks[..k] + [e];
    AliveAppend(s.blocks[..k], e, now);
    TickBlocks(s, now, k);
  }

  lemma TickBlocks(s: State, now: real, k: nat)
    requires Unique(s.blocks) && k < |s.blocks|
    ensures var e, t := s.blocks[k], Alive(s.blocks[..k], now) + s.blocks[k..];
            && t[|Alive(s.blocks[..k], now)|] == e && Unique(t)
            && Alive(s.blocks[..k + 1], now) + s.blocks[k + 1..] == (if now >= e.1.expires then Del(t, e.0) else t)
  {
    var e := s.blocks[k];
    var a, b := Alive(s.blocks[..k], now), s.blocks[k + 1..];
    assert s.blocks[..k + 1] == s.blocks[..k] + [e];
    AliveAppend(s.blocks[..k], e, now);
    assert s.blocks[k..] == [e] + b;
    assert a + ([e] + b) == a + [e] + b;
    TickUnique(s, now, k);
    DelMiddle(a, e, b);
  }

  lemma TickUnique(s: State, now: real, k: nat)
    requires Unique(s.blocks) && k < |s.blocks|
    ensures Unique(Alive(s.blocks[..k], now) + [s.blocks[k]] + s.blocks[k + 1..])
  {
    var a := Alive(s.blocks[..k], now);
    var all := a + [s.blocks[k]] + s.blocks[k + 1..];
    AliveUnique(s.blocks[..k], now);
    AliveOnly(s.blocks[..k], now);
    forall i, j | 0 <= i < j < |all| ensures all[i].0 != all[j].0 {
      if i < |a| {
        assert a[i] in s.blocks[..k];
        var q :| 0 <= q < k && s.blocks[q] == a[i];
        if j >= |a| { assert all[j] == s.blocks[k + (j - |a|)]; }
      } else {
        assert all[i] == s.blocks[k + (i - |a|)] && all[j] == s.blocks[k + (j - |a|)];
      }
    }
  }

  // One block's turn: healed and dropped when it is past its deadline, else poisoned
  // again.
  function NextOfTick(t: State, e: (string, Block), now: real): State {
    t.(blocks := if now >= e.1.expires then Del(t.blocks, e.0) else t.blocks,
       wire := t.wire + [TickPacket(e, now)], history := t.history + [TickEvent(e, now)])
  }

  lemma TickNext(s: State, now: real, k: nat)
    requires Unique(s.blocks) && k < |s.blocks|
    ensures TickUpTo(s, now, k + 1) == NextOfTick(TickUpTo(s, now, k), s.blocks[k], now)
  {
    TickStep(s, now, k);
  }

  lemma {:induction false} TickUpToKeepsInv(c: Config, s: State, now: real, k: nat)
    requires Inv(c, s) && s.clock <= now && k <= |s.blocks|
    ensures Inv(c, TickUpTo(s, now, k))
  {
    if k == 0 {
      ClockKeepsInv(c, s, now);
      TickUpToZero(s, now);
    } else {
      TickUpToKeepsInv(c, s, now, k - 1);
      TickUpToNext(c, s, now, k - 1);
    }
  }

  lemma TickUpToZero(s: State, now: real)
    ensures TickUpTo(s, now, 0) == s.(clock := now)
  {
    assert s.blocks[0..] == s.blocks;
  }

  lemma TickUpToAll(s: State, now: real)
    ensures TickUpTo(s, now, |s.blocks|) == AfterTick(s, now)
  {
    assert s.blocks[..|s.blocks|] == s.blocks;
    assert Alive(s.blocks, now) + [] == Alive(s.blocks, now);
  }

  lemma TickUpToNext(c: Config, s: State, now: real, k: nat)
    requires Unique(s.blocks) && k < |s.blocks| && Inv(c, TickUpTo(s, now, k))
    ensures Inv(c, TickUpTo(s, now, k + 1))
  {
    TickStep(s, now, k);
    TouchKeepsInv(c, TickUpTo(s, now, k), |Alive(s.blocks[..k], now)|, now, TickUpTo(s, now, k + 1));
  }

  // One entry expired or re-asserted.
  lemma TouchKeepsInv(c: Config, t: State, i: nat, now: real, t': State)
    requires Inv(c, t) && t.clock <= now && i < |t.blocks|
    requires t'.blocks == (if now >= t.blocks[i].1.expires then Del(t.blocks, t.blocks[i].0) else t.blocks)
    requires t'.wire == t.wire + [TickPacket(t.blocks[i], now)] && t'.grants == t.grants && t'.clock == now
    ensures Inv(c, t')
  {
    var e := t.blocks[i];
    if now >= e.1.expires {
      HealKeepsInv(c, t, i, now);
      HistoryIsFree(c, Healed(t, e, now), t');
    } else {
      ReassertKeepsInv(c, t, i, now);
      HistoryIsFree(c, Reasserted(t, e, now), t');
    }
  }

  // The invariant does not look at the audit trail or the loop.
  lemma HistoryIsFree(c: Config, s: State, t: State)
    requires Inv(c, s)
    requires s.blocks == t.blocks && s.wire == t.wire && s.grants == t.grants && s.clock == t.clock
    ensures Inv(c, t)
  {
    BlocksFree(c, s, t);
  }

  lemma TickKeepsInv(c: Config, s: State, now: real)
    requires Inv(c, s) && s.clock <= now
    ensures Inv(c, AfterTick(s, now))
    ensures forall e | e in AfterTick(s, now).blocks :: now < e.1.expires
  {
    TickUpToKeepsInv(c, s, now, |s.blocks|);
    TickUpToAll(s, now);
    AliveOnly(s.blocks, now);
  }

  // The state of stop() after undoing the first k blocks.
  function StopUpTo(s: State, now: real, k: nat): State
    requires k <= |s.blocks|
  {
    s.(blocks := s.blocks[k..],
       wire := s.wire + StopPackets(s.blocks[..k], now),
       history := s.history + StopEvents(s.blocks[..k]),
       clock := now)
  }

  lemma StopStep(s: State, now: real, k: nat)
    requires Unique(s.blocks) && k < |s.blocks|
    ensures var e, t := s.blocks[k], StopUpTo(s, now, k);
            && |t.blocks| > 0 && t.blocks[0] == e && Unique(t.blocks)
            && StopUpTo(s, now, k + 1).blocks == Del(t.blocks, e.0)
            && StopUpTo(s, now, k + 1).wire == t.wire + [Packet(e.1.ip, e.0, e.1.gatewayIp, true, now)]
            && StopUpTo(s, now, k + 1).history == t.history + [Event(Restore, e.0, e.1.ip)]
  {
    var e := s.blocks[k];
    assert s.blocks[..k + 1] == s.blocks[..k] + [e];
    AliveAppend(s.blocks[..k], e, now);
    assert s.blocks[k..][1..] == s.blocks[k + 1..];
  }

  lemma StopNext(s: State, now: real, k: nat)
    requires Unique(s.blocks) && k < |s.blocks|
    ensures var e, t := s.blocks[k], StopUpTo(s, now, k);
            StopUpTo(s, now, k + 1)
            == t.(blocks := Del(t.blocks, e.0),
                  wire := t.wire + [Packet(e.1.ip, e.0, e.1.gatewayIp, true, now)],
                  history := t.history + [Event(Restore, e.0, e.1.ip)])
  {
    StopStep(s, now, k);
  }

  lemma StopUpToAll(s: State, now: real)
    ensures StopUpTo(s, now, |s.blocks|) == s.(blocks := [], wire := s.wire + StopPackets(s.blocks, now),
                                               history := s.history + StopEvents(s.blocks), clock := now)
  {
    assert s.blocks[..|s.blocks|] == s.blocks;
  }

  lemma {:induction false} StopUpToKeepsInv(c: Config, s: State, now: real, k: nat)
    requires Inv(c, s) && s.clock <= now && k <= |s.blocks|
    ensures Inv(c, StopUpTo(s, now, k))
  {
    if k == 0 {
      ClockKeepsInv(c, s, now);
      assert StopUpTo(s, now, 0) == s.(clock := now);
    } else {
      StopUpToKeepsInv(c, s, now, k - 1);
      StopStep(s, now, k - 1);
      var t := StopUpTo(s, now, k - 1);
      HealKeepsInv(c, t, 0, now);
      HistoryIsFree(c, Healed(t, t.blocks[0], now), StopUpTo(s, now, k));
    }
  }

  lemma StopKeepsInv(c: Config, s: State, now: real)
    requires Inv(c, s) && s.clock <= now
    ensures Inv(c, AfterStopRestore(s, now))
  {
    StopUpToKeepsInv(c, s, now, |s.blocks|);
    assert s.blocks[..|s.blocks|] == s.blocks;
    HistoryIsFree(c, StopUpTo(s, now, |s.blocks|), AfterStopRestore(s, now));
  }

  lemma UnblockKeepsInv(c: Config, s: State, mac: string, now: real)
    requires Inv(c, s) && s.clock <= now
    ensures Inv(c, AfterUnblock(s, mac, now))
  {
    var m := NormMac(mac);
    match Get(s.blocks, m) {
      case None => ClockKeepsInv(c, s, now);
      case Some(b) =>
        GetIffHas(s.blocks, m);
        var i :| 0 <= i < |s.blocks| && s.blocks[i] == (m, b);
        HealKeepsInv(c, s, i, now);
        HistoryIsFree(c, Healed(s, s.blocks[i], now), AfterUnblock(s, mac, now));
    }
  }

  lemma ApplyKeepsInv(c: Config, s: State, op: Op, now: real)
    requires ValidConfig(c) && Inv(c, s) && s.clock <= now
    ensures Inv(c, Apply(c, s, op, now))
    ensures Apply(c, s, op, now).clock == now
  {
    match op {
      case DoBlock(r) => BlockKeepsInv(c, s, r, now);
      case DoUnblock(m) => UnblockKeepsInv(c, s, m, now);
      case DoTick => TickKeepsInv(c, s, now);
      case DoLoop =>
        if s.task == Live && |s.blocks| > 0 {
          TickKeepsInv(c, s, now);
        } else {
          ClockKeepsInv(c, s, now);
          HistoryIsFree(c, s.(clock := now), AfterLoop(s, now));
        }
      case DoStopCancel =>
        ClockKeepsInv(c, s, now);
        HistoryIsFree(c, s.(clock := now), AfterStopCancel(s, now));
      case DoStopRestore => StopKeepsInv(c, s, now);
    }
  }

  // -- Every run ------------------------------------------------------------

  lemma {:induction false} RunKeepsInv(c: Config, start: real, ops: seq<(Op, real)>)
    requires ValidConfig(c) && Monotonic(start, ops)
    ensures Inv(c, Run(c, start, ops))
    ensures Run(c, start, ops).clock == if |ops| == 0 then start else ops[|ops| - 1].1
  {
    if |ops| > 0 {
      var front := ops[..|ops| - 1];
      RunKeepsInv(c, start, front);
      ApplyKeepsInv(c, Run(c, start, front), ops[|ops| - 1].0, ops[|ops| - 1].1);
    }
  }

  lemma {:induction false} RunGrantsAccepted(c: Config, start: real, ops: seq<(Op, real)>)
    ensures GrantsAccepted(Run(c, start, ops).grants)
  {
    if |ops| > 0 {
      var front := ops[..|ops| - 1];
      RunGrantsAccepted(c, start, front);
      ApplyKeepsGrants(c, Run(c, start, front), ops[|ops| - 1].0, ops[|ops| - 1].1);
    }
  }

  lemma ApplyKeepsGrants(c: Config, s: State, op: Op, now: real)
    requires GrantsAccepted(s.grants)
    ensures GrantsAccepted(Apply(c, s, op, now).grants)
  {
    if op.DoBlock? && BlockOutcome(c, s, op.request).Ok? {
      var t := BlockOutcome(c, s, op.request).value;
      var g := Grant(t.mac, t.ip, GatewayIpOf(op.request), now, op.request);
      assert GrantAccepted(g);
      assert Apply(c, s, op, now).grants == s.grants + [g];
    }
  }
}
