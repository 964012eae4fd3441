// Concrete runs of the device blocker in which its limits are reached.
module ArpWitness {
  import opened Prelude
  import opened PyDict
  import opened Text
  import opened ArpTarget
  import opened ArpBlocking
  import opened ArpInvariant
  import opened ArpLimits

  // -- Requests the validator accepts, on 10.0.0.0/24 ----------------------------------------

  // Device "a" at an address, asked of a host whose gateway is device "b".
  function Ask(ip: string, gateway: string, lip: string): (r: Request) {
    Request("a", [Device("a", ip, false)], Some(Device("b", gateway, true)), lip, None)
  }

  function Dotted(last: string): (s: string) { Join(["10", "0", "0", last], '.') }

  lemma DottedText(last: string)
    ensures Dotted(last) == "10.0.0." + last
  {
    var parts := ["10", "0", "0", last];
    assert parts[1..] == ["0", "0", last] && parts[1..][1..] == ["0", last] && parts[1..][1..][1..] == [last];
    assert Join([last], '.') == last;
    assert Join(["0", last], '.') == "0." + last;
    assert Join(["0", "0", last], '.') == "0.0." + last;
  }

  lemma DottedParses(last: string, v: nat)
    requires ParseOctet(last) == Some(v) && '.' !in last
    ensures ParseV4("10.0.0." + last) == Some(Quad(10, 0, 0, v))
  {
    DottedText(last);
    var parts := ["10", "0", "0", last];
    SplitJoin(parts, '.');
    assert ParseOctet("10") == Some(10) && ParseOctet("0") == Some(0);
  }

  lemma OneLetterMac(c: char)
    requires 'a' <= c <= 'z'
    ensures NormMac([c]) == [c]
  {
    StripStrips([c]);
    NormMacAt([c]);
    assert NormMac([c])[0] == c;
  }

  // Text that parses as that address of the network and has no outer space.
  ghost predicate InLan(ip: string, v: nat) {
    Stripped(ip) && ip != "" && ParseV4(ip) == Some(Quad(10, 0, 0, v))
  }

  lemma CandidateAt(ip: string, gateway: string, lip: string)
    requires Stripped(ip) && ip != "" && Stripped(lip) && lip != ""
    ensures IsCandidate(Ask(ip, gateway, lip), Target("a", ip))
  {
    var r := Ask(ip, gateway, lip);
    OneLetterMac('a');
    OneLetterMac('b');
    StripStrips(ip);
    StripStrips(lip);
    assert r.inventory[0] in r.inventory;
  }

  lemma SafeAt(ip: string, v: nat, gateway: string, g: nat, lip: string)
    requires 2 < v <= 255 && InLan(ip, v) && InLan(gateway, g) && g != v && InLan(lip, 2)
    ensures SafeAddress(ip, lip, [gateway, ""])
  {
    assert Split("", '.') == [""];
    InTheLan(v);
    AddressSafe(ip, Quad(10, 0, 0, v), lip, Quad(10, 0, 0, 2), [gateway, ""]);
  }

  lemma AddressSafe(ip: string, a: nat, lip: string, b: nat, denied: seq<string>)
    requires ParseV4(ip) == Some(a) && ParseV4(lip) == Some(b)
    requires IsPrivate(a) && !IsRefusedRange(a) && a / 256 == b / 256 && a != b
    requires forall i | 0 <= i < |denied| :: ParseV4(denied[i]) != Some(a)
    ensures SafeAddress(ip, lip, denied)
  {
  }

  lemma InTheLan(v: nat)
    requires 2 < v <= 255
    ensures var a := Quad(10, 0, 0, v);
            IsPrivate(a) && !IsRefusedRange(a) && a / 256 == Quad(10, 0, 0, 2) / 256
  {
  }

  lemma DeniedAt(ip: string, gateway: string, lip: string)
    requires Stripped(gateway) && Stripped(lip)
    ensures DeniedGatewayIps(Ask(ip, gateway, lip)) == [gateway, ""] && Strip(lip) == lip
  {
    StripStrips(gateway);
    StripStrips(lip);
    assert Strip("") == "";
  }

  lemma AcceptedAt(ip: string, v: nat, gateway: string, g: nat, lip: string)
    requires 2 < v <= 255 && InLan(ip, v) && InLan(gateway, g) && g != v && InLan(lip, 2)
    ensures ValidateTarget(Ask(ip, gateway, lip)) == Ok(Target("a", ip))
  {
    CandidateAt(ip, gateway, lip);
    SafeAt(ip, v, gateway, g, lip);
    DeniedAt(ip, gateway, lip);
    AcceptedExactly(Ask(ip, gateway, lip), Target("a", ip));
  }

  lemma LanAt(last: string, v: nat)
    requires |last| > 0 && !IsSpace(last[|last| - 1]) && '.' !in last && ParseOctet(last) == Some(v)
    ensures InLan("10.0.0." + last, v)
  {
    DottedParses(last, v);
  }

  // The addresses used below.
  lemma LanAddress(v: nat)
    requires v <= 9 || v == 255
    ensures exists ip :: InLan(ip, v)
  {
    var digits := "0123456789";
    var last := if v == 255 then "255" else [digits[v]];
    LanAt(last, v);
  }

  ghost predicate BroadcastAccepted(r: Request, t: Target) {
    ValidateTarget(r) == Ok(t) && IsBroadcast(t.ip, r.localIp)
  }

  lemma LastIsBroadcast(ip: string, lip: string)
    requires InLan(ip, 255) && InLan(lip, 2)
    ensures IsBroadcast(ip, lip)
  {
  }

  // The broadcast address of a network is accepted.
  lemma BroadcastIsAccepted()
    ensures exists r, t :: BroadcastAccepted(r, t)
  {
    LanAddress(255);
    LanAddress(1);
    LanAddress(2);
    var ip, gateway, lip :| InLan(ip, 255) && InLan(gateway, 1) && InLan(lip, 2);
    AcceptedAt(ip, 255, gateway, 1, lip);
    LastIsBroadcast(ip, lip);
    assert BroadcastAccepted(Ask(ip, gateway, lip), Target("a", ip));
  }

  // -- Runs -----------------------------------------------------------------------

  // Two accepted calls for one device, at two addresses or with two gateways.
  predicate MovingPair(r: Request, t: Target, r': Request, t': Target) {
    && ValidateTarget(r) == Ok(t) && ValidateTarget(r') == Ok(t') && t'.mac == t.mac
    && (t'.ip != t.ip || GatewayIpOf(r') != GatewayIpOf(r))
  }

  lemma DeviceMoves()
    ensures exists r, t, r', t' :: MovingPair(r, t, r', t')
  {
    LanAddress(1);
    LanAddress(2);
    LanAddress(5);
    LanAddress(6);
    var gateway, lip :| InLan(gateway, 1) && InLan(lip, 2);
    var ip, ip' :| InLan(ip, 5) && InLan(ip', 6);
    AcceptedAt(ip, 5, gateway, 1, lip);
    AcceptedAt(ip', 6, gateway, 1, lip);
    assert MovingPair(Ask(ip, gateway, lip), Target("a", ip), Ask(ip', gateway, lip), Target("a", ip'));
  }

  lemma GatewayOfAsk(ip: string, gateway: string, lip: string)
    requires Stripped(gateway)
    ensures GatewayIpOf(Ask(ip, gateway, lip)) == gateway
  {
    StripStrips(gateway);
  }

  lemma GatewayMoves()
    ensures exists r, t, r' :: MovingPair(r, t, r', t)
  {
    LanAddress(1);
    LanAddress(2);
    LanAddress(5);
    LanAddress(6);
    var gateway, lip :| InLan(gateway, 1) && InLan(lip, 2);
    var ip, gateway' :| InLan(ip, 5) && InLan(gateway', 6);
    AcceptedAt(ip, 5, gateway, 1, lip);
    AcceptedAt(ip, 5, gateway', 6, lip);
    GatewayOfAsk(ip, gateway, lip);
    GatewayOfAsk(ip, gateway', lip);
    assert MovingPair(Ask(ip, gateway, lip), Target("a", ip), Ask(ip, gateway', lip), Target("a", ip));
  }

  // The run of those operations, all at one instant, ends in s.
  ghost predicate Reaches(c: Config, ops: seq<(Op, real)>, s: State) {
    Monotonic(0.0, ops) && (forall i | 0 <= i < |ops| :: ops[i].1 == 0.0) && Run(c, 0.0, ops) == s
  }

  // Nothing is blocked any more, yet some entry is left poisoned.
  ghost predicate PoisonLeft(s: State) {
    s.blocks == [] && !NothingStranded(s.blocks, s.wire)
  }

  lemma StepReaches(c: Config, ops: seq<(Op, real)>, s: State, op: Op)
    requires Reaches(c, ops, s)
    ensures Reaches(c, ops + [(op, 0.0)], Apply(c, s, op, 0.0))
  {
    assert (ops + [(op, 0.0)])[..|ops|] == ops;
  }

  lemma BlockReaches(c: Config, ops: seq<(Op, real)>, s: State, r: Request, t: Target)
    requires Reaches(c, ops, s) && (|s.blocks| < c.maxBlocks || Get(s.blocks, t.mac).Some?)
    ensures ValidateTarget(r) == Ok(t) ==> Reaches(c, ops + [(DoBlock(r), 0.0)], AfterAccept(c, s, t, r, 0.0))
  {
    StepReaches(c, ops, s, DoBlock(r));
  }

  lemma NothingReached(c: Config)
    ensures Reaches(c, [], Initial(0.0))
  {
  }

  lemma FirstAccepted(c: Config, r: Request, t: Target)
    ensures var s := AfterAccept(c, Initial(0.0), t, r, 0.0);
            && s.blocks == [(t.mac, Block(t.ip, GatewayIpOf(r), c.ttl))]
            && s.wire == [Packet(t.ip, t.mac, GatewayIpOf(r), false, 0.0)]
  {
  }

  lemma SecondAccepted(c: Config, s: State, r: Request, t: Target, b: Block)
    requires s.blocks == [(t.mac, b)]
    ensures var s' := AfterAccept(c, s, t, r, 0.0);
            && s'.blocks == [(t.mac, Block(t.ip, GatewayIpOf(r), c.ttl))]
            && s'.wire == s.wire + [Packet(t.ip, t.mac, GatewayIpOf(r), false, 0.0)]
    ensures Get(s.blocks, t.mac).Some?
  {
  }

  lemma ThenUnblocked(s: State, mac: string, b: Block)
    requires s.blocks == [(mac, b)] && NormMac(mac) == mac
    ensures var s' := AfterUnblock(s, mac, 0.0);
            s'.blocks == [] && s'.wire == s.wire + [Packet(b.ip, mac, b.gatewayIp, true, 0.0)]
  {
  }

  lemma FirstStaysPoisoned(p: Packet, q: Packet, u: Packet)
    requires !p.restore && !IsAbout(q, p.mac, p.ip, p.gatewayIp) && !IsAbout(u, p.mac, p.ip, p.gatewayIp)
    ensures !NothingStranded([], [p] + [q] + [u])
  {
    LastAboutAppend([], p, p.mac, p.ip, p.gatewayIp);
    LastAboutAppend([p], q, p.mac, p.ip, p.gatewayIp);
    LastAboutAppend([p] + [q], u, p.mac, p.ip, p.gatewayIp);
    assert [] + [p] == [p];
    assert !NotStranded([], [p] + [q] + [u], p.mac, p.ip, p.gatewayIp);
  }

  function TwoBlocked(c: Config, r: Request, t: Target, r': Request, t': Target): (s: State) {
    AfterAccept(c, AfterAccept(c, Initial(0.0), t, r, 0.0), t', r', 0.0)
  }

  // The run: block, block again, unblock.
  function Moving(r: Request, r': Request, mac: string): (ops: seq<(Op, real)>) {
    [] + [(DoBlock(r), 0.0)] + [(DoBlock(r'), 0.0)] + [(DoUnblock(mac), 0.0)]
  }

  lemma MovingRun(c: Config, r: Request, t: Target, r': Request, t': Target)
    requires ValidConfig(c)
    ensures MovingPair(r, t, r', t') ==>
              Reaches(c, Moving(r, r', t.mac), AfterUnblock(TwoBlocked(c, r, t, r', t'), t.mac, 0.0))
  {
    if MovingPair(r, t, r', t') {
      var s1 := AfterAccept(c, Initial(0.0), t, r, 0.0);
      NothingReached(c);
      BlockReaches(c, [], Initial(0.0), r, t);
      FirstAccepted(c, r, t);
      SecondAccepted(c, s1, r', t', Block(t.ip, GatewayIpOf(r), c.ttl));
      BlockReaches(c, [] + [(DoBlock(r), 0.0)], s1, r', t');
      StepReaches(c, [] + [(DoBlock(r), 0.0)] + [(DoBlock(r'), 0.0)], TwoBlocked(c, r, t, r', t'), DoUnblock(t.mac));
    }
  }

  lemma TwoBlockedLeaves(c: Config, r: Request, t: Target, r': Request, t': Target)
    requires t'.mac == t.mac && NormMac(t.mac) == t.mac && (t'.ip != t.ip || GatewayIpOf(r') != GatewayIpOf(r))
    ensures PoisonLeft(AfterUnblock(TwoBlocked(c, r, t, r', t'), t.mac, 0.0))
  {
    FirstAccepted(c, r, t);
    var s1, s2 := AfterAccept(c, Initial(0.0), t, r, 0.0), TwoBlocked(c, r, t, r', t');
    SecondAccepted(c, s1, r', t', Block(t.ip, GatewayIpOf(r), c.ttl));
    ThenUnblocked(s2, t.mac, Block(t'.ip, GatewayIpOf(r'), c.ttl));
    FirstStaysPoisoned(Packet(t.ip, t.mac, GatewayIpOf(r), false, 0.0),
                       Packet(t'.ip, t.mac, GatewayIpOf(r'), false, 0.0),
                       Packet(t'.ip, t.mac, GatewayIpOf(r'), true, 0.0));
  }

  lemma AcceptedIsNormal(r: Request, t: Target)
    ensures ValidateTarget(r) == Ok(t) ==> t.mac == NormMac(r.mac)
  {
  }

  // Blocking a device, blocking it again after it or the gateway moved, and unblocking
  // it heals the second binding only.
  lemma MovingBlockStrands(c: Config, r: Request, t: Target, r': Request, t': Target)
    requires ValidConfig(c)
    ensures MovingPair(r, t, r', t') ==> exists s :: Reaches(c, Moving(r, r', t.mac), s) && PoisonLeft(s)
  {
    if MovingPair(r, t, r', t') {
      MovingRun(c, r, t, r', t');
      AcceptedIsNormal(r, t);
      NormMacIdempotent(r.mac);
      TwoBlockedLeaves(c, r, t, r', t');
    }
  }

  // Under every configuration some run ends with nothing blocked and an entry poisoned
  // at the address a device has left ...
  lemma StrandingIsReached(c: Config)
    requires ValidConfig(c)
    ensures exists ops, s :: Reaches(c, ops, s) && PoisonLeft(s)
  {
    DeviceMoves();
    var r, t, r', t' :| MovingPair(r, t, r', t');
    MovingBlockStrands(c, r, t, r', t');
  }

  // ... and so does some run in which the device stays where it is and the gateway
  // moves.
  lemma GatewayMoveStrands(c: Config)
    requires ValidConfig(c)
    ensures exists r, t, r', s :: MovingPair(r, t, r', t) && Reaches(c, Moving(r, r', t.mac), s) && PoisonLeft(s)
  {
    GatewayMoves();
    var r, t, r' :| MovingPair(r, t, r', t);
    MovingBlockStrands(c, r, t, r', t);
  }

  // A raising transport would break the tick at which the first block expires.
  ghost predicate TickBreaks(c: Config, s: State) {
    && s.clock <= c.ttl && |s.blocks| > 0
    && !WireMatches(TickRaisedAt(s, c.ttl, 0).blocks, TickRaisedAt(s, c.ttl, 0).wire)
  }

  lemma OneBlockTickBreaks(c: Config, r: Request, t: Target)
    requires ValidConfig(c)
    ensures TickBreaks(c, AfterAccept(c, Initial(0.0), t, r, 0.0))
  {
    var s := AfterAccept(c, Initial(0.0), t, r, 0.0);
    FirstAccepted(c, r, t);
    RunKeepsInv(c, 0.0, []);
    AcceptKeepsInv(c, Initial(0.0), t, r, 0.0);
    TickRaisedBreaksExactly(c, s, c.ttl, 0);
  }

  lemma RaisingIsReached(c: Config)
    requires ValidConfig(c)
    ensures exists ops, s :: Reaches(c, ops, s) && TickBreaks(c, s)
  {
    DeviceMoves();
    var r, t, r', t' :| MovingPair(r, t, r', t');
    NothingReached(c);
    BlockReaches(c, [], Initial(0.0), r, t);
    OneBlockTickBreaks(c, r, t);
  }

  // Every first block call is one that a raising transport breaks, and leaves without a
  // loop.
  lemma FirstBlockRaisedBreaks(c: Config, t: Target, gw: string, now: real)
    requires ValidConfig(c)
    ensures var s := BlockRaised(c, Run(c, 0.0, []), t, gw, now);
            !WireMatches(s.blocks, s.wire) && NeverExpires(s)
  {
    RunKeepsInv(c, 0.0, []);
    BlockRaisedBreaksExactly(c, Run(c, 0.0, []), t, gw, now);
    BlockRaisedUnwatchedExactly(c, Run(c, 0.0, []), t, gw, now);
  }
}
