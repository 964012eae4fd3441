// The ARP device blocker: the active-block set, the re-assert loop, shutdown and
// the audit ring (backend/wavr/arp_block.py).
//
// Here is what each operation does to a blocker's state and what every run of
// operations leaves on the wire; DeviceBlocker has the object that does it in place.
module ArpBlocking {
  import opened Prelude
  import opened PyDict
  import opened ArpTarget
  import opened Text

  datatype Block = Block(ip: string, gatewayIp: string, expires: real)

  // One ARP reply handed to the transport. restore: heal the target's entry for
  // the gateway; otherwise poison it.
  datatype Packet = Packet(ip: string, mac: string, gatewayIp: string, restore: bool, at: real)

  datatype Kind = BlockEvent | Unblock | Reassert | Expire | Restore
  datatype Event = Event(kind: Kind, mac: string, ip: string)

  // A block call that was accepted, with the request it was accepted for.
  datatype Grant = Grant(mac: string, ip: string, gatewayIp: string, at: real, request: Request)

  datatype TaskState = NoTask | Live | Finished

  datatype Config = Config(ttl: real, maxBlocks: nat, maxEvents: nat)

  datatype State = State(
    blocks: Dict<string, Block>,
    wire: seq<Packet>,       // every packet ever sent
    history: seq<Event>,     // every event ever recorded
    grants: seq<Grant>,      // every accepted block call
    task: TaskState,
    clock: real)             // when the last step ran

  datatype Op =
    | DoBlock(request: Request)
    | DoUnblock(mac: string)
    | DoTick
    | DoLoop            // the re-assert loop wakes up
    | DoStopCancel      // stop(), up to its await: the loop is cancelled
    | DoStopRestore     // stop(), after its await: every block is undone

  datatype BlockError = BadTarget(reason: TargetError) | TooManyBlocks

  // -- What one operation does ---------------------------------------------

  ghost predicate ValidConfig(c: Config) {
    c.ttl >= 1.0 && c.maxBlocks >= 1 && c.maxEvents >= 1
  }

  function BlockOutcome(c: Config, s: State, r: Request): (res: Result<Target, BlockError>) {
    match ValidateTarget(r)
    case Err(e) => Err(BadTarget(e))
    case Ok(t) =>
      if Get(s.blocks, t.mac).None? && |s.blocks| >= c.maxBlocks then Err(TooManyBlocks) else Ok(t)
  }

  function GatewayIpOf(r: Request): string {
    if r.gateway.Some? then Strip(r.gateway.value.ip) else ""
  }

  function AfterAccept(c: Config, s: State, t: Target, r: Request, now: real): (s': State) {
    var gw := GatewayIpOf(r);
    s.(blocks := Set(s.blocks, t.mac, Block(t.ip, gw, now + c.ttl)),
       wire := s.wire + [Packet(t.ip, t.mac, gw, false, now)],
       history := s.history + [Event(BlockEvent, t.mac, t.ip)],
       grants := s.grants + [Grant(t.mac, t.ip, gw, now, r)],
       task := Live,
       clock := now)
  }

  function AfterBlock(c: Config, s: State, r: Request, now: real): (s': State) {
    match BlockOutcome(c, s, r)
    case Err(_) => s.(clock := now)
    case Ok(t) => AfterAccept(c, s, t, r, now)
  }

  function AfterUnblock(s: State, mac: string, now: real): (s': State) {
    match Get(s.blocks, NormMac(mac))
    case None => s.(clock := now)
    case Some(b) =>
      s.(blocks := Del(s.blocks, NormMac(mac)),
         wire := s.wire + [Packet(b.ip, NormMac(mac), b.gatewayIp, true, now)],
         history := s.history + [Event(Unblock, NormMac(mac), b.ip)],
         clock := now)
  }

  // What is left of the blocks d after a tick, what it sends and what it records.
  function Alive(d: Dict<string, Block>, now: real): (r: Dict<string, Block>) {
    if |d| == 0 then [] else (if now >= d[0].1.expires then [] else [d[0]]) + Alive(d[1..], now)
  }

  function TickPacket(e: (string, Block), now: real): Packet {
    Packet(e.1.ip, e.0, e.1.gatewayIp, now >= e.1.expires, now)
  }

  function TickPackets(d: Dict<string, Block>, now: real): (r: seq<Packet>)
    ensures |r| == |d|
  {
    if |d| == 0 then [] else [TickPacket(d[0], now)] + TickPackets(d[1..], now)
  }

  function TickEvent(e: (string, Block), now: real): Event {
    Event(if now >= e.1.expires then Expire else Reassert, e.0, e.1.ip)
  }

  function TickEvents(d: Dict<string, Block>, now: real): (r: seq<Event>)
    ensures |r| == |d|
  {
    if |d| == 0 then [] else [TickEvent(d[0], now)] + TickEvents(d[1..], now)
  }

  function AfterTick(s: State, now: real): (s': State) {
    s.(blocks := Alive(s.blocks, now),
       wire := s.wire + TickPackets(s.blocks, now),
       history := s.history + TickEvents(s.blocks, now),
       clock := now)
  }

  function AfterLoop(s: State, now: real): (s': State) {
    if s.task != Live then s.(clock := now)
    else if |s.blocks| == 0 then s.(task := Finished, clock := now)
    else AfterTick(s, now)
  }

  function StopPackets(d: Dict<string, Block>, now: real): (r: seq<Packet>)
    ensures |r| == |d|
  {
    if |d| == 0 then []
    else [Packet(d[0].1.ip, d[0].0, d[0].1.gatewayIp, true, now)] + StopPackets(d[1..], now)
  }

  function StopEvents(d: Dict<string, Block>): (r: seq<Event>)
    ensures |r| == |d|
  {
    if |d| == 0 then [] else [Event(Restore, d[0].0, d[0].1.ip)] + StopEvents(d[1..])
  }

  function AfterStopCancel(s: State, now: real): (s': State) {
    s.(task := if s.task == Live then Finished else s.task, clock := now)
  }

  function AfterStopRestore(s: State, now: real): (s': State) {
    s.(blocks := [],
       wire := s.wire + StopPackets(s.blocks, now),
       history := s.history + StopEvents(s.blocks),
       task := NoTask,
       clock := now)
  }

  function Apply(c: Config, s: State, op: Op, now: real): (s': State) {
    match op
    case DoBlock(r) => AfterBlock(c, s, r, now)
    case DoUnblock(m) => AfterUnblock(s, m, now)
    case DoTick => AfterTick(s, now)
    case DoLoop => AfterLoop(s, now)
    case DoStopCancel => AfterStopCancel(s, now)
    case DoStopRestore => AfterStopRestore(s, now)
  }

  function Initial(now: real): State { State([], [], [], [], NoTask, now) }

  // A run: operations in order, each with the monotonic clock's reading.
  function Run(c: Config, start: real, ops: seq<(Op, real)>): (s: State) {
    if |ops| == 0 then Initial(start)
    else
      var last := ops[|ops| - 1];
      Apply(c, Run(c, start, ops[..|ops| - 1]), last.0, last.1)
  }

  ghost predicate Monotonic(start: real, ops: seq<(Op, real)>) {
    && (forall i | 0 <= i < |ops| :: start <= ops[i].1)
    && (forall i, j | 0 <= i < j < |ops| :: ops[i].1 <= ops[j].1)
  }

  // -- What a run leaves on the wire ---------------------------------------

  // The last packet sent to a MAC.
  function LastTo(wire: seq<Packet>, mac: string): (p: Option<Packet>) {
    if |wire| == 0 then None
    else if wire[|wire| - 1].mac == mac then Some(wire[|wire| - 1])
    else LastTo(wire[..|wire| - 1], mac)
  }

  ghost predicate Poisons(p: Packet, b: Block) {
    !p.restore && p.ip == b.ip && p.gatewayIp == b.gatewayIp
  }

  // The last packet to a MAC is a poison exactly when the MAC is blocked, and
  // then it carries the block's own address and gateway.
  ghost predicate WireMatches(blocks: Dict<string, Block>, wire: seq<Packet>) {
    forall m :: WireMatchesAt(blocks, wire, m)
  }

  ghost predicate WireMatchesAt(blocks: Dict<string, Block>, wire: seq<Packet>, m: string) {
    match Get(blocks, m)
    case Some(b) => LastTo(wire, m).Some? && Poisons(LastTo(wire, m).value, b)
    case None => LastTo(wire, m).Some? ==> LastTo(wire, m).value.restore
  }

  // Every restore heals what the last packet to that MAC poisoned.
  ghost predicate RestoresHeal(wire: seq<Packet>) {
    forall i: nat {:trigger HealsAt(wire, i)} | i < |wire| && wire[i].restore :: HealsAt(wire, i)
  }

  ghost predicate HealsAt(wire: seq<Packet>, i: nat)
    requires i < |wire|
  {
    var p := LastTo(wire[..i], wire[i].mac);
    p.Some? && !p.value.restore && p.value.ip == wire[i].ip && p.value.gatewayIp == wire[i].gatewayIp
  }

  // Every poison was authorised: an accepted block call for exactly that MAC,
  // address and gateway came no later, and its time to live had not run out.
  ghost predicate PoisonsGranted(c: Config, grants: seq<Grant>, wire: seq<Packet>) {
    forall i {:trigger GrantedPoison(c, grants, wire[i])} | 0 <= i < |wire| && !wire[i].restore ::
      GrantedPoison(c, grants, wire[i])
  }

  ghost predicate GrantedPoison(c: Config, grants: seq<Grant>, p: Packet) {
    exists k | 0 <= k < |grants| :: Covers(c, grants[k], p)
  }

  ghost predicate Covers(c: Config, g: Grant, p: Packet) {
    && g.mac == p.mac && g.ip == p.ip && g.gatewayIp == p.gatewayIp
    && g.at <= p.at < g.at + c.ttl
  }

  ghost predicate GrantsAccepted(grants: seq<Grant>) {
    forall k {:trigger GrantAccepted(grants[k])} | 0 <= k < |grants| :: GrantAccepted(grants[k])
  }

  ghost predicate GrantAccepted(g: Grant) {
    ValidateTarget(g.request) == Ok(Target(g.mac, g.ip)) && g.gatewayIp == GatewayIpOf(g.request)
  }

  // Every block in force was granted: by some call, and its expiry is that
  // call's time plus the time to live.
  ghost predicate BlocksGranted(c: Config, s: State) {
    forall i {:trigger BlockGranted(c, s, s.blocks[i])} | 0 <= i < |s.blocks| :: BlockGranted(c, s, s.blocks[i])
  }

  ghost predicate BlockGranted(c: Config, s: State, e: (string, Block)) {
    exists k | 0 <= k < |s.grants| :: GrantOf(c, s.grants[k], e, s.clock)
  }

  ghost predicate GrantOf(c: Config, g: Grant, e: (string, Block), clock: real) {
    && g.mac == e.0 && g.ip == e.1.ip && g.gatewayIp == e.1.gatewayIp
    && g.at + c.ttl == e.1.expires && g.at <= clock
  }

  ghost predicate Inv(c: Config, s: State) {
    && Unique(s.blocks)
    && |s.blocks| <= c.maxBlocks
    && WireMatches(s.blocks, s.wire)
    && RestoresHeal(s.wire)
    && BlocksGranted(c, s)
    && PoisonsGranted(c, s.grants, s.wire)
  }
}
