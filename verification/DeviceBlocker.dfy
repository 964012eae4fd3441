// The blocker as an object that changes its blocks, its audit ring and its loop in
// place (class ArpBlocker of backend/wavr/arp_block.py), proved to do what
// ArpBlocking says.
module DeviceBlocker {
  import opened Prelude
  import opened PyDict
  import opened Text
  import opened ArpTarget
  import opened ArpBlocking
  import opened ArpInvariant

  class ArpBlocker {
    const config: Config
    var blocks: Dict<string, Block>
    var events: seq<Event>
    var task: TaskState
    ghost var wire: seq<Packet>
    ghost var history: seq<Event>
    ghost var grants: seq<Grant>
    ghost var clock: real

    ghost function Model(): State
      reads this
    {
      State(blocks, wire, history, grants, task, clock)
    }

    // The audit ring always holds the most recent events of the full history.
    ghost predicate Valid()
      reads this
    {
      && ValidConfig(config)
      && Inv(config, Model())
      && events == TakeLast(history, config.maxEvents)
    }

    constructor (ttl: real, maxBlocks: int, maxEvents: int, ghost now: real)
      ensures Valid() && Model() == Initial(now)
      ensures config == Config(if ttl > 1.0 then ttl else 1.0,
                               if maxBlocks > 1 then maxBlocks else 1,
                               if maxEvents > 1 then maxEvents else 1)
    {
      config := Config(if ttl > 1.0 then ttl else 1.0,
                       if maxBlocks > 1 then maxBlocks else 1,
                       if maxEvents > 1 then maxEvents else 1);
      blocks, events, task := [], [], NoTask;
      wire, history, grants, clock := [], [], [], now;
    }

    method Record(kind: Kind, mac: string, ip: string)
      requires config.maxEvents >= 1 && events == TakeLast(history, config.maxEvents)
      modifies this`events, this`history
      ensures history == old(history) + [Event(kind, mac, ip)]
      ensures events == TakeLast(history, config.maxEvents)
    {
      events := events + [Event(kind, mac, ip)];
      if |events| > config.maxEvents {
        events := events[|events| - config.maxEvents..];
      }
      history := history + [Event(kind, mac, ip)];
    }

    // max(1, limit) events, newest last.
    method RecentEvents(limit: int) returns (r: seq<Event>)
      requires Valid()
      ensures r == TakeLast(history,
                            if limit <= 1 then 1 else if limit <= config.maxEvents then limit else config.maxEvents)
    {
      var n := if limit > 1 then limit else 1;
      r := if |events| <= n then events else events[|events| - n..];
    }

    method Emit(ip: string, mac: string, gatewayIp: string, restore: bool, ghost now: real)
      modifies this`wire
      ensures wire == old(wire) + [Packet(ip, mac, gatewayIp, restore, now)]
    {
      wire := wire + [Packet(ip, mac, gatewayIp, restore, now)];
    }

    method BlockTarget(r: Request, now: real) returns (res: Result<Target, BlockError>)
      requires Valid() && clock <= now
      modifies this
      ensures Valid()
      ensures res == BlockOutcome(config, old(Model()), r)
      ensures Model() == AfterBlock(config, old(Model()), r, now)
    {
      BlockKeepsInv(config, Model(), r, now);
      var v := ValidateTarget(r);
      if v.Err? {
        clock := now;
        res := Err(BadTarget(v.error));
      } else if Get(blocks, v.value.mac).None? && |blocks| >= config.maxBlocks {
        clock := now;
        res := Err(TooManyBlocks);
      } else {
        res := Ok(v.value);
        Admit(v.value, r, now);
      }
    }

    method Admit(t: Target, r: Request, now: real)
      requires ValidConfig(config) && events == TakeLast(history, config.maxEvents)
      modifies this
      ensures Model() == AfterAccept(config, old(Model()), t, r, now)
      ensures events == TakeLast(history, config.maxEvents)
    {
      var gw := if r.gateway.Some? then Strip(r.gateway.value.ip) else "";
      blocks := Set(blocks, t.mac, Block(t.ip, gw, now + config.ttl));
      grants := grants + [Grant(t.mac, t.ip, gw, now, r)];
      clock := now;
      Emit(t.ip, t.mac, gw, false, now);
      Record(BlockEvent, t.mac, t.ip);
      if task != Live { task := Live; }
    }

    method UnblockMac(mac: string, now: real) returns (was: bool)
      requires Valid() && clock <= now
      modifies this
      ensures Valid()
      ensures was == Get(old(blocks), NormMac(mac)).Some?
      ensures Model() == AfterUnblock(old(Model()), mac, now)
    {
      UnblockKeepsInv(config, Model(), mac, now);
      var m := NormMac(mac);
      clock := now;
      var b := Get(blocks, m);
      if b.None? { return false; }
      blocks := Del(blocks, m);
      Emit(b.value.ip, m, b.value.gatewayIp, true, now);
      Record(Unblock, m, b.value.ip);
      was := true;
    }

    method Tick(now: real)
      requires Valid() && clock <= now
      modifies this
      ensures Valid()
      ensures Model() == AfterTick(old(Model()), now)
    {
      ghost var s := Model();
      TickUpToZero(s, now);
      clock := now;
      var items := blocks;
      for i := 0 to |items|
        invariant Model() == TickUpTo(s, now, i)
        invariant events == TakeLast(history, config.maxEvents)
      {
        ghost var next := NextOfTick(Model(), items[i], now);
        TickNext(s, now, i);
        var m, b := items[i].0, items[i].1;
        if now >= b.expires {
          blocks := Del(blocks, m);
          Emit(b.ip, m, b.gatewayIp, true, now);
          Record(Expire, m, b.ip);
        } else {
          Emit(b.ip, m, b.gatewayIp, false, now);
          Record(Reassert, m, b.ip);
        }
        assert Model() == next;
      }
      TickUpToAll(s, now);
      TickKeepsInv(config, s, now);
    }

    // One turn of the loop: it ends when nothing is blocked, else ticks.
    method LoopStep(now: real)
      requires Valid() && clock <= now
      modifies this
      ensures Valid()
      ensures Model() == AfterLoop(old(Model()), now)
    {
      ApplyKeepsInv(config, Model(), DoLoop, now);
      if task != Live {
        clock := now;
      } else if |blocks| == 0 {
        task := Finished;
        clock := now;
      } else {
        Tick(now);
      }
    }

    method StopCancel(ghost now: real)
      requires Valid() && clock <= now
      modifies this
      ensures Valid()
      ensures Model() == AfterStopCancel(old(Model()), now)
    {
      ApplyKeepsInv(config, Model(), DoStopCancel, now);
      if task == Live { task := Finished; }
      clock := now;
    }

    method StopRestore(now: real)
      requires Valid() && clock <= now
      modifies this
      ensures Valid()
      ensures Model() == AfterStopRestore(old(Model()), now)
    {
      StopKeepsInv(config, Model(), now);
      task := NoTask;
      clock := now;
      ghost var s := Model();
      RestoreEach(now);
      StopUpToAll(s, now);
    }

    // Every block popped, restored and recorded, in order.
    method RestoreEach(ghost now: real)
      requires Unique(blocks) && clock == now && config.maxEvents >= 1
      requires events == TakeLast(history, config.maxEvents)
      modifies this
      ensures Model() == StopUpTo(old(Model()), now, |old(blocks)|)
      ensures events == TakeLast(history, config.maxEvents)
    {
      ghost var s := Model();
      var items := blocks;
      assert items[0..] == items;
      for i := 0 to |items|
        invariant Model() == StopUpTo(s, now, i)
        invariant events == TakeLast(history, config.maxEvents)
      {
        StopNext(s, now, i);
        var m, b := items[i].0, items[i].1;
        blocks := Del(blocks, m);
        Emit(b.ip, m, b.gatewayIp, true, now);
        Record(Restore, m, b.ip);
      }
    }
  }
}
